/**
 * Turning a flattened snapshot into a status row: filtering by the topic
 * whitelist, expanding the list-valued topics into their scalars, and
 * concatenating the results in encounter order.
 */
module Row {
  import opened Snapshot
  import opened Topics

  /** The columns of the status table, in the order the insert names them. */
  const Schema: seq<string> :=
    ["motor_load_1", "motor_load_2", "battery_V", "pitch_deg", "heading_deg",
     "roll_deg", "distance_cm_1", "distance_cm_2", "distance_cm_3", "state",
     "timestamp_s"]

  /** The columns a whitelisted topic's values are meant for; none for any
      other topic. */
  function ColumnsOf(topic: string): seq<string>
  {
    if topic == MotorLoadTopic then ["motor_load_1", "motor_load_2"]
    else if topic == BatteryTopic then ["battery_V"]
    else if topic == PitchTopic then ["pitch_deg"]
    else if topic == HeadingTopic then ["heading_deg"]
    else if topic == RollTopic then ["roll_deg"]
    else if topic == DistanceTopic then ["distance_cm_1", "distance_cm_2", "distance_cm_3"]
    else if topic == StateTopic then ["state"]
    else if topic == TimestampTopic then ["timestamp_s"]
    else []
  }

  /** Each whitelisted topic is meant for at least one column: two for the
      motor loads, three for the distances, one for every other topic; any
      other topic is meant for none. */
  lemma ColumnsOfWidth(topic: string)
    ensures topic in StatusTopics <==> ColumnsOf(topic) != []
    ensures |ColumnsOf(topic)| == if topic == MotorLoadTopic then 2
                                  else if topic == DistanceTopic then 3
                                  else if topic in StatusTopics then 1 else 0
  {
  }

  /** The columns of a run of topics, one after the other. */
  function Columns(ts: seq<string>): seq<string>
  {
    if ts == [] then [] else ColumnsOf(ts[0]) + Columns(ts[1..])
  }

  /** The leaf of a list-valued topic is a list long enough to index: two
      motor loads, three distances. */
  predicate Expandable(topic: string, v: Value)
  {
    if topic == MotorLoadTopic then v.Items? && |v.elems| >= 2
    else if topic == DistanceTopic then v.Items? && |v.elems| >= 3
    else true
  }

  /** The scalars one whitelisted field contributes: the leading list
      elements, in list order, for the two list-valued topics, and the leaf's
      text for every other topic. */
  function Expand(topic: string, v: Value): (r: seq<string>)
    requires Expandable(topic, v)
    ensures topic in StatusTopics ==> |r| == |ColumnsOf(topic)|
    ensures topic == MotorLoadTopic || topic == DistanceTopic ==> r == v.elems[..|r|]
    ensures topic != MotorLoadTopic && topic != DistanceTopic ==> r == [v.text]
  {
    if topic == MotorLoadTopic then [v.elems[0], v.elems[1]]
    else if topic == DistanceTopic then [v.elems[0], v.elems[1], v.elems[2]]
    else [v.text]
  }

  /** Every field of the run can be expanded under its built topic. */
  predicate AllExpandable(root: string, fs: seq<Field>)
  {
    forall i :: 0 <= i < |fs| ==> Expandable(TopicOf(root, fs[i].keys), fs[i].leaf)
  }

  /** What one field adds to the row: nothing unless its topic is
      whitelisted. */
  function Contribution(root: string, f: Field): seq<string>
    requires Expandable(TopicOf(root, f.keys), f.leaf)
  {
    var topic := TopicOf(root, f.keys);
    if topic in StatusTopics then Expand(topic, f.leaf) else []
  }

  /** The row built from a run of fields: the contributions in encounter
      order. */
  function Status(root: string, fs: seq<Field>): seq<string>
    requires AllExpandable(root, fs)
  {
    if fs == [] then []
    else Status(root, fs[..|fs| - 1]) + Contribution(root, fs[|fs| - 1])
  }

  /** The whitelisted topics of a run of fields, in encounter order. */
  function Accepted(root: string, fs: seq<Field>): seq<string>
  {
    if fs == [] then []
    else
      var topic := TopicOf(root, fs[|fs| - 1].keys);
      Accepted(root, fs[..|fs| - 1]) + (if topic in StatusTopics then [topic] else [])
  }

  /** Builds the row of a snapshot the way the consumer does: one topic per
      flattened item, whitelisted ones expanded and appended. */
  method BuildStatus(root: string, data: seq<(string, Node)>) returns (status: seq<string>)
    requires AllExpandable(root, Flatten(data))
    ensures status == Status(root, Flatten(data))
  {
    var lines := Flatten(data);
    status := [];
    for n := 0 to |lines|
      invariant AllExpandable(root, lines[..n])
      invariant status == Status(root, lines[..n])
    {
      var ln := lines[n];
      var topic := BuildTopic(root, ln.keys);
      var msg := ln.leaf;
      StatusSnoc(root, lines, n);
      if topic in StatusTopics {
        status := AppendValues(status, topic, msg);
      }
    }
    assert lines[..|lines|] == lines;
  }

  /** Appends the values of one whitelisted field: the leading list elements
      one by one for the two list-valued topics, the leaf's text otherwise. */
  method AppendValues(status: seq<string>, topic: string, msg: Value) returns (r: seq<string>)
    requires topic in StatusTopics && Expandable(topic, msg)
    ensures r == status + Expand(topic, msg)
  {
    r := status;
    if topic == MotorLoadTopic {
      r := r + [msg.elems[0]];
      r := r + [msg.elems[1]];
    } else if topic == DistanceTopic {
      r := r + [msg.elems[0]];
      r := r + [msg.elems[1]];
      r := r + [msg.elems[2]];
    } else {
      r := r + [msg.text];
    }
  }

  /** The row of one more field is the row so far followed by that field's
      contribution. */
  lemma StatusSnoc(root: string, fs: seq<Field>, n: nat)
    requires AllExpandable(root, fs) && n < |fs|
    ensures Expandable(TopicOf(root, fs[n].keys), fs[n].leaf)
    ensures AllExpandable(root, fs[..n]) && AllExpandable(root, fs[..n + 1])
    ensures Status(root, fs[..n + 1]) == Status(root, fs[..n]) + Contribution(root, fs[n])
  {
    assert fs[..n + 1][..n] == fs[..n];
    assert forall i :: 0 <= i <= n ==> fs[..n + 1][i] == fs[i];
  }

  /** The row of two runs of fields is the row of the first followed by the
      row of the second. */
  lemma {:induction false} StatusAppend(root: string, a: seq<Field>, b: seq<Field>)
    requires AllExpandable(root, a) && AllExpandable(root, b)
    ensures AllExpandable(root, a + b)
    ensures Status(root, a + b) == Status(root, a) + Status(root, b)
    decreases |b|
  {
    assert AllExpandable(root, a + b) by {
      forall i | 0 <= i < |a + b|
        ensures Expandable(TopicOf(root, (a + b)[i].keys), (a + b)[i].leaf)
      {
        if i < |a| {
          assert (a + b)[i] == a[i];
        } else {
          assert (a + b)[i] == b[i - |a|];
        }
      }
    }
    if b == [] {
      assert a + b == a;
    } else {
      var b' := b[..|b| - 1];
      assert AllExpandable(root, b') by {
        forall i | 0 <= i < |b'| ensures Expandable(TopicOf(root, b'[i].keys), b'[i].leaf) {
          assert b'[i] == b[i];
        }
      }
      StatusAppend(root, a, b');
      assert (a + b)[..|a + b| - 1] == a + b';
      assert (a + b)[|a + b| - 1] == b[|b| - 1];
    }
  }

  /** A field whose topic is not whitelisted adds nothing to the row,
      whatever its value. */
  lemma UnlistedAddsNothing(root: string, a: seq<Field>, f: Field, b: seq<Field>)
    requires AllExpandable(root, a) && AllExpandable(root, b)
    requires TopicOf(root, f.keys) !in StatusTopics
    ensures AllExpandable(root, a + [f] + b)
    ensures Status(root, a + [f] + b) == Status(root, a + b)
  {
    SingleUnlisted(root, f);
    StatusAppend(root, a, [f]);
    StatusAppend(root, a + [f], b);
    StatusAppend(root, a, b);
  }

  lemma SingleUnlisted(root: string, f: Field)
    requires TopicOf(root, f.keys) !in StatusTopics
    ensures AllExpandable(root, [f]) && Status(root, [f]) == []
  {
    assert [f][..0] == [];
  }

  /** Each whitelisted field fills as many row positions as its topic has
      columns, so the row is exactly as long as the columns of the accepted
      topics. */
  lemma {:induction false} StatusWidth(root: string, fs: seq<Field>)
    requires AllExpandable(root, fs)
    ensures |Status(root, fs)| == |Columns(Accepted(root, fs))|
    decreases |fs|
  {
    if fs != [] {
      var init := fs[..|fs| - 1];
      var topic := TopicOf(root, fs[|fs| - 1].keys);
      assert AllExpandable(root, init) by {
        forall i | 0 <= i < |init| ensures Expandable(TopicOf(root, init[i].keys), init[i].leaf) {
          assert init[i] == fs[i];
        }
      }
      StatusWidth(root, init);
      var tail := if topic in StatusTopics then [topic] else [];
      ColumnsAppend(Accepted(root, init), tail);
      if topic in StatusTopics {
        assert Columns([topic]) == ColumnsOf(topic) by {
          assert [topic][1..] == [];
        }
      }
    }
  }

  lemma {:induction false} ColumnsAppend(s: seq<string>, t: seq<string>)
    ensures Columns(s + t) == Columns(s) + Columns(t)
    decreases |s|
  {
    if s == [] {
      assert s + t == t;
    } else {
      assert (s + t)[0] == s[0];
      assert (s + t)[1..] == s[1..] + t;
      ColumnsAppend(s[1..], t);
    }
  }

  /** The number of columns of a run of whitelisted topics: one per topic,
      plus one more per motor-load topic and two more per distance topic. */
  lemma {:induction false} ColumnsCount(ts: seq<string>)
    requires forall i :: 0 <= i < |ts| ==> ts[i] in StatusTopics
    ensures |Columns(ts)| == |ts| + multiset(ts)[MotorLoadTopic] + 2 * multiset(ts)[DistanceTopic]
    decreases |ts|
  {
    if ts != [] {
      ColumnsOfWidth(ts[0]);
      ColumnsCount(ts[1..]);
      assert ts == [ts[0]] + ts[1..];
      assert multiset(ts) == multiset{ts[0]} + multiset(ts[1..]);
    }
  }

  /** The columns each whitelisted topic is meant for. */
  lemma WhitelistColumns()
    ensures ColumnsOf(BatteryTopic) == ["battery_V"]
    ensures ColumnsOf(PitchTopic) == ["pitch_deg"]
    ensures ColumnsOf(HeadingTopic) == ["heading_deg"]
    ensures ColumnsOf(RollTopic) == ["roll_deg"]
    ensures ColumnsOf(StateTopic) == ["state"]
    ensures ColumnsOf(TimestampTopic) == ["timestamp_s"]
  {
  }

  lemma ColumnsCons(t: string, ts: seq<string>)
    ensures Columns([t] + ts) == ColumnsOf(t) + Columns(ts)
  {
    assert ([t] + ts)[1..] == ts;
  }

  /** The columns of the last three whitelisted topics. */
  lemma LastColumns()
    ensures Columns([DistanceTopic, StateTopic, TimestampTopic]) == Schema[6..]
  {
    WhitelistColumns();
    ColumnsCons(TimestampTopic, []);
    ColumnsCons(StateTopic, [TimestampTopic]);
    ColumnsCons(DistanceTopic, [StateTopic, TimestampTopic]);
    assert [StateTopic, TimestampTopic] == [StateTopic] + [TimestampTopic];
    assert [DistanceTopic, StateTopic, TimestampTopic] == [DistanceTopic] + [StateTopic, TimestampTopic];
  }

  /** The columns of the compass topics and those after them. */
  lemma CompassColumns()
    ensures Columns([PitchTopic, HeadingTopic, RollTopic, DistanceTopic, StateTopic, TimestampTopic])
         == Schema[3..]
  {
    var tail := [DistanceTopic, StateTopic, TimestampTopic];
    LastColumns();
    WhitelistColumns();
    ColumnsCons(RollTopic, tail);
    ColumnsCons(HeadingTopic, [RollTopic] + tail);
    ColumnsCons(PitchTopic, [HeadingTopic] + ([RollTopic] + tail));
    assert [PitchTopic, HeadingTopic, RollTopic, DistanceTopic, StateTopic, TimestampTopic]
        == [PitchTopic] + ([HeadingTopic] + ([RollTopic] + tail));
  }

  /** Laid out in whitelist order, the eight topics fill the table's columns
      exactly. */
  lemma WhitelistFillsSchema()
    ensures Columns(StatusTopics) == Schema
  {
    var tail := [PitchTopic, HeadingTopic, RollTopic, DistanceTopic, StateTopic, TimestampTopic];
    CompassColumns();
    WhitelistColumns();
    ColumnsCons(BatteryTopic, tail);
    ColumnsCons(MotorLoadTopic, [BatteryTopic] + tail);
    assert StatusTopics == [MotorLoadTopic] + ([BatteryTopic] + tail);
  }

  /** The whitelist holds the two list-valued topics once each. */
  lemma WhitelistMultiplicities()
    ensures multiset(StatusTopics)[MotorLoadTopic] == 1
    ensures multiset(StatusTopics)[DistanceTopic] == 1
    ensures |multiset(StatusTopics)| == 8
  {
  }

  /** A run of fields (a flattened snapshot) carrying each of the eight
      whitelisted topics exactly once, in any order, gives a row of eleven
      values. */
  lemma FullSnapshotRow(root: string, fs: seq<Field>)
    requires AllExpandable(root, fs)
    ensures multiset(Accepted(root, fs)) == multiset(StatusTopics) ==>
              |Status(root, fs)| == |Schema| == 11
  {
    var acc := Accepted(root, fs);
    StatusWidth(root, fs);
    WhitelistFillsSchema();
    if multiset(acc) == multiset(StatusTopics) {
      forall i | 0 <= i < |acc| ensures acc[i] in StatusTopics {
        assert acc[i] in multiset(acc);
      }
      ColumnsCount(acc);
      WhitelistMultiplicities();
      assert |acc| == |multiset(acc)|;
    }
  }

  /** Under a root other than the hard-coded one (and without a slash), no
      field is accepted: every row is empty. */
  lemma {:induction false} ForeignRootEmptyRow(root: string, fs: seq<Field>)
    requires '/' !in root && root != HardcodedRoot
    ensures AllExpandable(root, fs) && Status(root, fs) == []
    decreases |fs|
  {
    forall i | 0 <= i < |fs| ensures TopicOf(root, fs[i].keys) !in StatusTopics {
      ForeignRootAcceptsNothing(root, fs[i].keys);
    }
    if fs != [] {
      ForeignRootEmptyRow(root, fs[..|fs| - 1]);
    }
  }

  lemma StatusSingle(root: string, f: Field)
    requires Expandable(TopicOf(root, f.keys), f.leaf)
    ensures AllExpandable(root, [f]) && Status(root, [f]) == Contribution(root, f)
  {
    assert [f][..0] == [];
  }

  /** The whitelisted topics of two runs of fields are those of the first
      followed by those of the second. */
  lemma {:induction false} AcceptedAppend(root: string, a: seq<Field>, b: seq<Field>)
    ensures Accepted(root, a + b) == Accepted(root, a) + Accepted(root, b)
    decreases |b|
  {
    if b == [] {
      assert a + b == a;
    } else {
      AcceptedAppend(root, a, b[..|b| - 1]);
      assert (a + b)[..|a + b| - 1] == a + b[..|b| - 1];
      assert (a + b)[|a + b| - 1] == b[|b| - 1];
    }
  }

  /** Where a field's values land: the t-th value field `f` contributes stands
      in the row right after the values of the fields before it, and the
      column the accepted topics assign to that position is the t-th column
      `f`'s topic is meant for. */
  lemma RowPlacement(root: string, a: seq<Field>, f: Field, b: seq<Field>, t: nat)
    requires AllExpandable(root, a) && AllExpandable(root, b)
    requires Expandable(TopicOf(root, f.keys), f.leaf)
    requires t < |Contribution(root, f)|
    ensures AllExpandable(root, a + [f] + b)
    ensures |Status(root, a)| + t < |Status(root, a + [f] + b)|
    ensures |Columns(Accepted(root, a + [f] + b))| == |Status(root, a + [f] + b)|
    ensures Status(root, a + [f] + b)[|Status(root, a)| + t] == Contribution(root, f)[t]
    ensures Columns(Accepted(root, a + [f] + b))[|Status(root, a)| + t]
         == ColumnsOf(TopicOf(root, f.keys))[t]
  {
    StatusAround(root, a, f, b);
    StatusWidth(root, a);
    StatusWidth(root, a + [f] + b);
    ColumnsAround(root, a, f, b);
  }

  lemma StatusAround(root: string, a: seq<Field>, f: Field, b: seq<Field>)
    requires AllExpandable(root, a) && AllExpandable(root, b)
    requires Expandable(TopicOf(root, f.keys), f.leaf)
    ensures AllExpandable(root, a + [f] + b)
    ensures Status(root, a + [f] + b) == Status(root, a) + Contribution(root, f) + Status(root, b)
  {
    StatusSingle(root, f);
    StatusAppend(root, a, [f]);
    StatusAppend(root, a + [f], b);
  }

  lemma ColumnsAround(root: string, a: seq<Field>, f: Field, b: seq<Field>)
    requires TopicOf(root, f.keys) in StatusTopics
    ensures Columns(Accepted(root, a + [f] + b))
         == Columns(Accepted(root, a)) + ColumnsOf(TopicOf(root, f.keys)) + Columns(Accepted(root, b))
  {
    var topic := TopicOf(root, f.keys);
    AcceptedAppend(root, a, [f]);
    AcceptedAppend(root, a + [f], b);
    assert Accepted(root, [f]) == [topic] by {
      assert [f][..0] == [];
    }
    ColumnsAppend(Accepted(root, a), [topic]);
    ColumnsAppend(Accepted(root, a) + [topic], Accepted(root, b));
    assert Columns([topic]) == ColumnsOf(topic) by {
      assert [topic][1..] == [];
    }
  }

  /** With the whitelisted topics met in whitelist order, every value lands in
      the table column its topic is meant for: the t-th value of field `f` is
      stored under the t-th of `f`'s columns. */
  lemma WhitelistOrderRow(root: string, a: seq<Field>, f: Field, b: seq<Field>, t: nat)
    requires AllExpandable(root, a) && AllExpandable(root, b)
    requires Expandable(TopicOf(root, f.keys), f.leaf)
    requires t < |Contribution(root, f)|
    ensures AllExpandable(root, a + [f] + b)
    ensures |Status(root, a)| + t < |Status(root, a + [f] + b)|
    ensures Status(root, a + [f] + b)[|Status(root, a)| + t] == Contribution(root, f)[t]
    ensures Accepted(root, a + [f] + b) == StatusTopics ==>
              |Status(root, a)| + t < |Schema| &&
              Schema[|Status(root, a)| + t] == ColumnsOf(TopicOf(root, f.keys))[t]
  {
    RowPlacement(root, a, f, b, t);
    WhitelistFillsSchema();
  }

  lemma SmallerMultiset(a: multiset<string>, b: multiset<string>)
    requires a < b
    ensures |a| < |b|
    ensures forall x :: a[x] <= b[x]
  {
    var c := b - a;
    assert b == a + c;
    assert c != multiset{};
  }

  /** A run of fields that lacks some whitelisted topics, and repeats none,
      gives a row shorter than the table's eleven columns. */
  lemma MissingTopicShortRow(root: string, fs: seq<Field>)
    requires AllExpandable(root, fs)
    ensures multiset(Accepted(root, fs)) < multiset(StatusTopics) ==> |Status(root, fs)| < |Schema|
  {
    var acc := Accepted(root, fs);
    if multiset(acc) < multiset(StatusTopics) {
      StatusWidth(root, fs);
      forall i | 0 <= i < |acc| ensures acc[i] in StatusTopics {
        assert acc[i] in multiset(acc);
      }
      ColumnsCount(acc);
      WhitelistMultiplicities();
      SmallerMultiset(multiset(acc), multiset(StatusTopics));
      assert |acc| == |multiset(acc)|;
    }
  }
}
