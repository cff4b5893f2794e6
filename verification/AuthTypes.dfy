/** Values shared by the decider tiers, the answer flows and the node. */
module AuthTypes {

  datatype Option<+T> = None | Some(value: T)

  datatype ActionKind = Read | Write | Other
  {
    function Name(): string {
      match this
      case Read => "read"
      case Write => "write"
      case Other => "other"
    }
  }

  /** One footprint table and the columns touched, in the source map's sorted order. */
  datatype TableUse = TableUse(table: string, columns: seq<string>)

  /** What a statement touches; `denied` lists the constructs the authorizer refused. */
  datatype Footprint = Footprint(kind: ActionKind, tables: seq<TableUse>, denied: seq<string>)
  {
    predicate HasDenied() {
      denied != []
    }

    function TableNames(): (names: seq<string>)
      ensures |names| == |tables|
      ensures forall i :: 0 <= i < |tables| ==> names[i] == tables[i].table
    {
      seq(|tables|, i requires 0 <= i < |tables| => tables[i].table)
    }
  }

  datatype Decision =
    | Allow
    | AllowNarrowed(rewrite: string)
    | Deny(reason: string)
    | Escalate

  /** One request as the tiers see it. */
  datatype Request = Request(peer: string, action: string, footprint: Footprint, statement: string)

  /** Parts joined by a separator. */
  function Join(parts: seq<string>, separator: string): string {
    if parts == [] then ""
    else if |parts| == 1 then parts[0]
    else parts[0] + separator + Join(parts[1..], separator)
  }
}
