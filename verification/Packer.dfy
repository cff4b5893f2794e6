/** The greedy packing of `rsntr turtle load`: lines into `INSERT DATA` chunks under a byte budget. */
module Packer {

  /** A line or chunk as its UTF-8 bytes; `|line|` is its length in the source. */
  type Bytes = seq<char>

  /** The bytes a group of lines occupies, each with its newline. */
  function Size(group: seq<Bytes>): nat {
    if group == [] then 0 else |group[0]| + 1 + Size(group[1..])
  }

  function Text(group: seq<Bytes>): (text: Bytes)
    ensures |text| == Size(group)
  {
    if group == [] then [] else group[0] + "\n" + Text(group[1..])
  }

  function Texts(groups: seq<seq<Bytes>>): (texts: seq<Bytes>)
    ensures |texts| == |groups|
  {
    seq(|groups|, i requires 0 <= i < |groups| => Text(groups[i]))
  }

  function Flatten(groups: seq<seq<Bytes>>): seq<Bytes> {
    if groups == [] then [] else groups[0] + Flatten(groups[1..])
  }

  /** A chunk may go out when it fits the budget, or is one line that never will. */
  predicate Fits(group: seq<Bytes>, budget: nat) {
    group != [] && (Size(group) <= budget || |group| == 1)
  }

  /** A split of the lines into contiguous chunks that may go out. */
  predicate Split(groups: seq<seq<Bytes>>, lines: seq<Bytes>, budget: nat) {
    Flatten(groups) == lines && forall i :: 0 <= i < |groups| ==> Fits(groups[i], budget)
  }

  lemma {:induction false} SizeSnoc(group: seq<Bytes>, line: Bytes)
    ensures Size(group + [line]) == Size(group) + |line| + 1
    ensures Text(group + [line]) == Text(group) + (line + "\n")
  {
    if group == [] {
      assert group + [line] == [line] && [line][1..] == [];
      assert Text([line]) == line + "\n" + [];
    } else {
      assert (group + [line])[1..] == group[1..] + [line];
      SizeSnoc(group[1..], line);
      Regroup(group[0] + "\n", Text(group[1..]), line + "\n");
    }
  }

  lemma Regroup(a: Bytes, b: Bytes, c: Bytes)
    ensures a + (b + c) == a + b + c
  {
  }

  // ----- the greedy fold over groups -----

  /** Chunks still to be produced with `current` open and `lines` to come. */
  function Pack(current: seq<Bytes>, lines: seq<Bytes>, budget: nat): seq<seq<Bytes>>
    decreases |lines|
  {
    if lines == [] then (if current == [] then [] else [current])
    else if current != [] && Size(current) + |lines[0]| + 1 > budget then [current] + Pack([lines[0]], lines[1..], budget)
    else Pack(current + [lines[0]], lines[1..], budget)
  }

  /** The packer of `turtle_load`. Its chunks are the texts of a split of the lines, and no split uses fewer. */
  method GreedyPack(lines: seq<Bytes>, budget: nat) returns (chunks: seq<Bytes>, ghost groups: seq<seq<Bytes>>)
    ensures chunks == Texts(groups) && Split(groups, lines, budget)
    ensures forall other :: Split(other, lines, budget) ==> |chunks| <= |other|
  {
    chunks := [];
    var current: Bytes := [];
    ghost var done: seq<seq<Bytes>>, open: seq<Bytes> := [], [];
    assert lines[0..] == lines && [] + Pack([], lines, budget) == Pack([], lines, budget);
    for i := 0 to |lines|
      invariant chunks == Texts(done) && current == Text(open)
      invariant Pack([], lines, budget) == done + Pack(open, lines[i..], budget)
    {
      var line := lines[i];
      assert lines[i..][0] == line && lines[i..][1..] == lines[i + 1..];
      if current != [] && |current| + |line| + 1 > budget {
        chunks := chunks + [current];
        current := [];
        CloseChunk(done, open, Pack([line], lines[i + 1..], budget));
        done := done + [open];
        open := [];
      }
      SizeSnoc(open, line);
      assert [] + [line] == [line];
      Regroup(current, line, "\n");
      current := current + line;
      current := current + "\n";
      open := open + [line];
    }
    assert lines[|lines|..] == [];
    CloseChunk(done, open, []);
    if current != [] {
      chunks := chunks + [current];
      done := done + [open];
    }
    assert done + [] == done;
    groups := done;
    PackIsBest(lines, budget);
  }

  lemma CloseChunk(done: seq<seq<Bytes>>, open: seq<Bytes>, rest: seq<seq<Bytes>>)
    ensures done + ([open] + rest) == (done + [open]) + rest
    ensures Texts(done + [open]) == Texts(done) + [Text(open)]
  {
  }

  lemma PackIsBest(lines: seq<Bytes>, budget: nat)
    ensures Split(Pack([], lines, budget), lines, budget)
    ensures forall other :: Split(other, lines, budget) ==> |Pack([], lines, budget)| <= |other|
  {
    PackSplits([], lines, budget);
    assert [] + lines == lines;
    forall other | Split(other, lines, budget)
      ensures |Pack([], lines, budget)| <= |other|
    {
      PackIsFewest([], [], lines, other, budget);
    }
  }

  lemma {:induction false} PackSplits(current: seq<Bytes>, lines: seq<Bytes>, budget: nat)
    requires current != [] ==> Fits(current, budget)
    ensures Split(Pack(current, lines, budget), current + lines, budget)
    decreases |lines|
  {
    if lines == [] {
      if current != [] {
        SplitCons(current, [], [], budget);
      }
    } else if current != [] && Size(current) + |lines[0]| + 1 > budget {
      PackSplits([lines[0]], lines[1..], budget);
      assert [lines[0]] + lines[1..] == lines;
      SplitCons(current, Pack([lines[0]], lines[1..], budget), lines, budget);
    } else {
      SizeSnoc(current, lines[0]);
      PackSplits(current + [lines[0]], lines[1..], budget);
      assert current + [lines[0]] + lines[1..] == current + lines;
    }
  }

  lemma SplitCons(group: seq<Bytes>, groups: seq<seq<Bytes>>, lines: seq<Bytes>, budget: nat)
    requires Fits(group, budget) && Split(groups, lines, budget)
    ensures Split([group] + groups, group + lines, budget)
  {
    assert ([group] + groups)[1..] == groups;
  }

  // ----- no split uses fewer chunks -----

  lemma {:induction false} SizeConcat(a: seq<Bytes>, b: seq<Bytes>)
    ensures Size(a + b) == Size(a) + Size(b)
  {
    if a == [] {
      assert a + b == b;
    } else {
      assert (a + b)[1..] == a[1..] + b;
      SizeConcat(a[1..], b);
    }
  }

  /** Greedy stays ahead: a split that starts no later than the open chunk needs at least as many chunks. */
  lemma {:induction false} PackIsFewest(before: seq<Bytes>, current: seq<Bytes>, lines: seq<Bytes>,
                                        other: seq<seq<Bytes>>, budget: nat)
    requires Split(other, before + current + lines, budget)
    ensures |Pack(current, lines, budget)| <= |other|
    decreases |lines|, |other|
  {
    if lines == [] {
      if current != [] {
        assert other != [];
      }
    } else if current != [] && Size(current) + |lines[0]| + 1 > budget {
      OverfullStartsLater(before, current, lines, other, budget);
    } else {
      assert before + (current + [lines[0]]) + lines[1..] == before + current + lines;
      PackIsFewest(before, current + [lines[0]], lines[1..], other, budget);
    }
  }

  /** When the next line overfills the open chunk, any split has closed a chunk by then. */
  lemma {:induction false} OverfullStartsLater(before: seq<Bytes>, current: seq<Bytes>, lines: seq<Bytes>,
                                               other: seq<seq<Bytes>>, budget: nat)
    requires Split(other, before + current + lines, budget) && lines != []
    requires current != [] && Size(current) + |lines[0]| + 1 > budget
    ensures 1 + |Pack([lines[0]], lines[1..], budget)| <= |other|
    decreases |lines|, |other|, 0
  {
    var all := before + current + lines;
    assert other != [];
    var head, rest := other[0], other[1..];
    assert all == head + Flatten(rest);
    assert Split(rest, all[|head|..], budget) by {
      assert all[|head|..] == Flatten(rest);
    }
    if |head| <= |before| {
      assert all[|head|..] == before[|head|..] + current + lines;
      OverfullStartsLater(before[|head|..], current, lines, rest, budget);
    } else if |head| <= |before + current| {
      var left := (before + current)[|head|..];
      assert all[|head|..] == left + [lines[0]] + lines[1..];
      PackIsFewest(left, [lines[0]], lines[1..], rest, budget);
    } else {
      TooBig(before, current, lines, head, budget);
    }
  }

  /** No chunk that may go out holds all of `current` and the line after it. */
  lemma TooBig(before: seq<Bytes>, current: seq<Bytes>, lines: seq<Bytes>, head: seq<Bytes>, budget: nat)
    requires lines != [] && current != [] && Size(current) + |lines[0]| + 1 > budget
    requires |head| > |before + current| && head <= before + current + lines
    ensures !Fits(head, budget)
  {
    var core, tail := current + [lines[0]], head[|before + current| + 1..];
    assert head == before + core + tail;
    SizeConcat(before + core, tail);
    SizeConcat(before, core);
    SizeSnoc(current, lines[0]);
  }

  // ----- nothing lost, nothing reordered -----

  lemma {:induction false} TextConcat(a: seq<Bytes>, b: seq<Bytes>)
    ensures Text(a + b) == Text(a) + Text(b)
  {
    if a == [] {
      assert a + b == b;
    } else {
      assert (a + b)[1..] == a[1..] + b;
      TextConcat(a[1..], b);
    }
  }

  function Joined(chunks: seq<Bytes>): Bytes {
    if chunks == [] then [] else chunks[0] + Joined(chunks[1..])
  }

  /** The chunks of any split, put end to end, are the lines with their newlines. */
  lemma {:induction false} ChunksJoinToLines(groups: seq<seq<Bytes>>)
    ensures Joined(Texts(groups)) == Text(Flatten(groups))
  {
    if groups != [] {
      ChunksJoinToLines(groups[1..]);
      TextConcat(groups[0], Flatten(groups[1..]));
      assert Texts(groups)[1..] == Texts(groups[1..]);
    }
  }
}
