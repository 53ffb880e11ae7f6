/**
 * A telemetry snapshot as the robot publishes it: a nested mapping whose
 * members keep the order in which the decoder produced them, and its
 * depth-first flattening into (key chain, leaf) items.
 */
module Snapshot {

  /** A leaf value, with `text` its text form as Python's `str` writes it.
      `Scalar(text)` is a number or string; `Items(text, elems)` is a leaf
      that reads as a list of scalars, each given by its text form. */
  datatype Value = Scalar(text: string) | Items(text: string, elems: seq<string>)

  /** A node of the snapshot: a nested mapping (an ordered sequence of
      key/child pairs) or a leaf, which may be a list. */
  datatype Node = Obj(members: seq<(string, Node)>) | Leaf(value: Value)

  /** One item produced by the flattener: the chain of keys from the top of
      the snapshot down to a leaf, and that leaf. */
  datatype Field = Field(keys: seq<string>, leaf: Value)

  /** Puts `k` in front of the key chain of every item. */
  function Prefix(k: string, fs: seq<Field>): seq<Field>
  {
    seq(|fs|, i requires 0 <= i < |fs| => Field([k] + fs[i].keys, fs[i].leaf))
  }

  /** The items of a mapping, member by member in the mapping's order. */
  function Flatten(ms: seq<(string, Node)>): (r: seq<Field>)
    ensures forall i :: 0 <= i < |r| ==> |r[i].keys| >= 1
    decreases ms
  {
    if ms == [] then []
    else FlattenMember(ms[0]) + Flatten(ms[1..])
  }

  /** The items below one member: the member itself when it is a leaf,
      otherwise the items of the nested mapping with the member's key in
      front. */
  function FlattenMember(m: (string, Node)): (r: seq<Field>)
    decreases m
  {
    match m.1
    case Leaf(x) => [Field([m.0], x)]
    case Obj(sub) => Prefix(m.0, Flatten(sub))
  }

  /** The number of leaves (values that are not mappings) in a mapping. */
  function LeafCount(ms: seq<(string, Node)>): nat
    decreases ms
  {
    if ms == [] then 0 else MemberLeafCount(ms[0]) + LeafCount(ms[1..])
  }

  function MemberLeafCount(m: (string, Node)): nat
    decreases m
  {
    match m.1
    case Leaf(_) => 1
    case Obj(sub) => LeafCount(sub)
  }

  /** Following the key chain `keys` from the top of the mapping `ms` ends at
      a leaf holding `v`. */
  ghost predicate Reaches(ms: seq<(string, Node)>, keys: seq<string>, v: Value)
    decreases ms
  {
    exists i :: 0 <= i < |ms| && MemberReaches(ms[i], keys, v)
  }

  ghost predicate MemberReaches(m: (string, Node), keys: seq<string>, v: Value)
    decreases m
  {
    |keys| >= 1 && keys[0] == m.0 &&
    match m.1
    case Leaf(x) => |keys| == 1 && x == v
    case Obj(sub) => Reaches(sub, keys[1..], v)
  }

  /** The flattener yields exactly one item per leaf, lists included; an
      empty mapping yields nothing. */
  lemma {:induction false} FlattenCount(ms: seq<(string, Node)>)
    ensures |Flatten(ms)| == LeafCount(ms)
    decreases ms
  {
    if ms != [] {
      MemberFlattenCount(ms[0]);
      FlattenCount(ms[1..]);
    }
  }

  lemma {:induction false} MemberFlattenCount(m: (string, Node))
    ensures |FlattenMember(m)| == MemberLeafCount(m)
    decreases m
  {
    match m.1
    case Leaf(_) =>
    case Obj(sub) => FlattenCount(sub);
  }

  /** An item is yielded exactly when its key chain leads from the top of the
      snapshot to a leaf holding its value. */
  lemma {:induction false} FlattenExact(ms: seq<(string, Node)>, keys: seq<string>, v: Value)
    ensures Field(keys, v) in Flatten(ms) <==> Reaches(ms, keys, v)
    decreases ms
  {
    if ms == [] {
    } else {
      MemberFlattenExact(ms[0], keys, v);
      FlattenExact(ms[1..], keys, v);
      if Reaches(ms, keys, v) {
        var i :| 0 <= i < |ms| && MemberReaches(ms[i], keys, v);
        if i > 0 {
          assert ms[1..][i - 1] == ms[i];
        }
      }
      if Reaches(ms[1..], keys, v) {
        var j :| 0 <= j < |ms[1..]| && MemberReaches(ms[1..][j], keys, v);
        assert ms[j + 1] == ms[1..][j];
      }
    }
  }

  lemma {:induction false} MemberFlattenExact(m: (string, Node), keys: seq<string>, v: Value)
    ensures Field(keys, v) in FlattenMember(m) <==> MemberReaches(m, keys, v)
    decreases m
  {
    match m.1
    case Leaf(x) =>
      if |keys| == 1 {
        assert keys == [keys[0]];
      }
    case Obj(sub) =>
      var fs := Flatten(sub);
      if keys == [] {
        assert forall i :: 0 <= i < |fs| ==> Prefix(m.0, fs)[i].keys != keys;
        return;
      }
      FlattenExact(sub, keys[1..], v);
      if Field(keys, v) in Prefix(m.0, fs) {
        var i :| 0 <= i < |fs| && Prefix(m.0, fs)[i] == Field(keys, v);
        assert keys[1..] == fs[i].keys;
        assert fs[i] == Field(keys[1..], v);
      }
      if MemberReaches(m, keys, v) {
        var i :| 0 <= i < |fs| && fs[i] == Field(keys[1..], v);
        assert keys == [m.0] + keys[1..];
        assert Prefix(m.0, fs)[i] == Field(keys, v);
      }
  }

  /** Flattening is depth-first: flattening two runs of members one after the
      other yields the items of the first run, then those of the second, so
      every item under a nested mapping comes before that mapping's next
      sibling. */
  lemma {:induction false} FlattenAppend(a: seq<(string, Node)>, b: seq<(string, Node)>)
    ensures Flatten(a + b) == Flatten(a) + Flatten(b)
  {
    if a == [] {
      assert a + b == b;
    } else {
      assert (a + b)[0] == a[0];
      assert (a + b)[1..] == a[1..] + b;
      FlattenAppend(a[1..], b);
    }
  }

  /** A nested mapping member, wherever it stands, yields all of its own items
      with the member's key in front, in the nested mapping's order, after the
      items of the members before it and before those of the members after it:
      a block of `LeafCount(sub)` items starting at position `LeafCount(pre)`. */
  lemma NestedMember(pre: seq<(string, Node)>, k: string, sub: seq<(string, Node)>,
                     post: seq<(string, Node)>)
    ensures Flatten(pre + [(k, Obj(sub))] + post)
         == Flatten(pre) + Prefix(k, Flatten(sub)) + Flatten(post)
    ensures |Flatten(pre)| == LeafCount(pre) && |Prefix(k, Flatten(sub))| == LeafCount(sub)
  {
    var m := (k, Obj(sub));
    FlattenAppend(pre + [m], post);
    FlattenAppend(pre, [m]);
    assert [m][1..] == [];
    FlattenCount(pre);
    FlattenCount(sub);
  }

  /** `{"a": {"b": 1, "c": 2}}` yields `a/b -> 1` and then `a/c -> 2`. */
  lemma TwoLevelExample()
    ensures Flatten([("a", Obj([("b", Leaf(Scalar("1"))), ("c", Leaf(Scalar("2")))]))])
         == [Field(["a", "b"], Scalar("1")), Field(["a", "c"], Scalar("2"))]
  {
    var inner := [("b", Leaf(Scalar("1"))), ("c", Leaf(Scalar("2")))];
    var outer := [("a", Obj(inner))];
    assert inner[1..] == [("c", Leaf(Scalar("2")))];
    assert Flatten(inner) == [Field(["b"], Scalar("1")), Field(["c"], Scalar("2"))];
    assert outer[1..] == [];
    assert Flatten(outer) == Prefix("a", Flatten(inner));
    assert ["a"] + ["b"] == ["a", "b"] && ["a"] + ["c"] == ["a", "c"];
  }

  /** A member holding an empty mapping, wherever it stands, yields nothing. */
  lemma EmptyMember(pre: seq<(string, Node)>, k: string, post: seq<(string, Node)>)
    ensures Flatten(pre + [(k, Obj([]))] + post) == Flatten(pre + post)
  {
    NestedMember(pre, k, [], post);
    FlattenAppend(pre, post);
  }
}
