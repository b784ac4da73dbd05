/** Sets that opened one after another with the same room, as counted runs, and
    what searching and splitting the runs does to the sets that they stand for. */
module PackedRuns {

  /** Some sets in a row with the same free capacity. */
  datatype Group = Group(count: nat, free: nat)

  ghost function Repeat(count: nat, free: nat): (frees: seq<nat>)
    ensures |frees| == count
  {
    seq(count, i => free)
  }

  /** The free capacity of each set. */
  ghost function Expand(groups: seq<Group>): seq<nat> {
    if groups == [] then [] else Expand(groups[..|groups| - 1]) + Repeat(groups[|groups| - 1].count, groups[|groups| - 1].free)
  }

  ghost predicate NoneEmpty(groups: seq<Group>) {
    forall j :: 0 <= j < |groups| ==> groups[j].count > 0
  }

  /** No set of the first groups has room. */
  ghost predicate NoRoom(groups: seq<Group>, n: nat, size: nat) {
    n <= |groups| && forall j :: 0 <= j < n ==> groups[j].free < size
  }

  lemma {:induction false} ExpandAppend(groups: seq<Group>, g: Group)
    ensures Expand(groups + [g]) == Expand(groups) + Repeat(g.count, g.free)
  {
    assert (groups + [g])[..|groups|] == groups;
  }

  lemma {:induction false} ExpandConcat(x: seq<Group>, y: seq<Group>)
    ensures Expand(x + y) == Expand(x) + Expand(y)
  {
    hide Repeat, Expand;
    if y == [] {
      assert x + y == x;
      NoSets();
    } else {
      var before, last := y[..|y| - 1], y[|y| - 1];
      ExpandConcat(x, before);
      ExpandAppend(x + before, last);
      ExpandAppend(before, last);
      assert before + [last] == y;
      assert x + before + [last] == x + y;
    }
  }

  lemma NoSets()
    ensures Expand([]) == []
  {
  }

  lemma {:induction false} ExpandPrefix(groups: seq<Group>, q: nat)
    requires q < |groups|
    ensures Expand(groups[..q + 1]) == Expand(groups[..q]) + Repeat(groups[q].count, groups[q].free)
  {
    assert groups[..q + 1] == groups[..q] + [groups[q]];
    ExpandAppend(groups[..q], groups[q]);
  }

  lemma {:induction false} ExpandFull(groups: seq<Group>, size: nat)
    requires NoRoom(groups, |groups|, size)
    ensures forall i :: 0 <= i < |Expand(groups)| ==> Expand(groups)[i] < size
  {
    if groups == [] {
    } else {
      var front := groups[..|groups| - 1];
      ExpandFull(front, size);
    }
  }

  /** The sets around one group. */
  lemma {:induction false} ExpandAround(groups: seq<Group>, q: nat)
    requires q < |groups|
    ensures Expand(groups) == Expand(groups[..q]) + Repeat(groups[q].count, groups[q].free) + Expand(groups[q + 1..])
  {
    hide Repeat, Expand;
    assert groups == groups[..q + 1] + groups[q + 1..];
    ExpandConcat(groups[..q + 1], groups[q + 1..]);
    ExpandPrefix(groups, q);
  }

  /** The first set with room is the first of the first group with room. */
  lemma {:induction false} FirstRoom(groups: seq<Group>, q: nat, size: nat)
    requires NoneEmpty(groups) && q < |groups| && NoRoom(groups, q, size) && groups[q].free >= size
    ensures var at, frees := |Expand(groups[..q])|, Expand(groups);
            && at < |frees| && frees[at] == groups[q].free
            && forall i :: 0 <= i < at ==> frees[i] < size
  {
    ExpandAround(groups, q);
    ExpandFull(groups[..q], size);
  }

  /** The groups after the first set of group q takes `size` addresses. */
  ghost function Taken(groups: seq<Group>, q: nat, size: nat): seq<Group>
    requires q < |groups| && groups[q].free >= size
  {
    var g := groups[q];
    groups[..q] + [Group(1, g.free - size)] + (if g.count > 1 then [Group(g.count - 1, g.free)] else []) + groups[q + 1..]
  }

  lemma {:induction false} ExpandTaken(groups: seq<Group>, q: nat, size: nat)
    requires NoneEmpty(groups) && q < |groups| && groups[q].free >= size
    ensures var at := |Expand(groups[..q])|;
            && at < |Expand(groups)|
            && Expand(Taken(groups, q, size)) == Expand(groups)[at := groups[q].free - size]
  {
    hide Expand;
    var g := groups[q];
    var before, after := groups[..q], groups[q + 1..];
    var one, rest := [Group(1, g.free - size)], if g.count > 1 then [Group(g.count - 1, g.free)] else [];
    ExpandAround(groups, q);
    ExpandConcat(before + one + rest, after);
    ExpandConcat(before + one, rest);
    ExpandAppend(before, one[0]);
    NoSets();
    if g.count > 1 {
      ExpandAppend([], rest[0]);
      assert [] + [rest[0]] == rest;
    }
    assert Expand(rest) == Repeat(g.count - 1, g.free);
  }

  /** A hint to start at a group stays right when a set takes addresses. */
  lemma {:induction false} HintStays(groups: seq<Group>, q: nat, size: nat, hint: nat, k: nat)
    requires q < |groups| && groups[q].free >= size && NoRoom(groups, hint, k) && hint < |groups|
    ensures var moved := if hint > q && groups[q].count > 1 then hint + 1 else hint;
            moved < |Taken(groups, q, size)| && NoRoom(Taken(groups, q, size), moved, k)
  {
  }
}
