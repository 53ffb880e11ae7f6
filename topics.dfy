/**
 * Topic strings: joining a key chain under the root topic, splitting a topic
 * back into its segments, and the fixed whitelist of status topics.
 */
module Topics {

  /** The parts with `sep` between each two consecutive ones. */
  function Join(parts: seq<string>, sep: string): string
  {
    if |parts| == 0 then ""
    else if |parts| == 1 then parts[0]
    else parts[0] + sep + Join(parts[1..], sep)
  }

  /** The topic a key chain is filed under: the root, a slash, then the keys
      separated by slashes. */
  function TopicOf(root: string, keys: seq<string>): string
  {
    root + "/" + Join(keys, "/")
  }

  /** The segments of a topic: the runs of characters between slashes. */
  function Split(s: string): (r: seq<string>)
    ensures |r| >= 1
  {
    if s == [] then [""]
    else
      var rest := Split(s[1..]);
      if s[0] == '/' then [""] + rest
      else [[s[0]] + rest[0]] + rest[1..]
  }

  /** Builds the topic of a key chain by appending to a string, a separator
      before every key but the first. */
  method BuildTopic(root: string, keys: seq<string>) returns (topic: string)
    ensures topic == TopicOf(root, keys)
  {
    topic := root + "/";
    for j := 0 to |keys|
      invariant topic == root + "/" + Join(keys[..j], "/")
    {
      if j > 0 && |keys| > 1 {
        topic := topic + "/";
      }
      topic := topic + keys[j];
      if j == 0 {
        assert keys[..1] == [keys[0]];
      } else {
        assert keys[..j + 1] == keys[..j] + [keys[j]];
        JoinSnoc(keys[..j], keys[j], "/");
      }
    }
    assert keys[..|keys|] == keys;
  }

  lemma {:induction false} JoinSnoc(parts: seq<string>, x: string, sep: string)
    requires |parts| >= 1
    ensures Join(parts + [x], sep) == Join(parts, sep) + sep + x
    decreases |parts|
  {
    if |parts| == 1 {
      assert (parts + [x])[1..] == [x];
    } else {
      assert (parts + [x])[1..] == parts[1..] + [x];
      JoinSnoc(parts[1..], x, sep);
    }
  }

  /** Splitting at a slash splits the two sides independently. */
  lemma {:induction false} SplitAtSlash(a: string, b: string)
    ensures Split(a + "/" + b) == Split(a) + Split(b)
    decreases |a|
  {
    if a == [] {
      assert a + "/" + b == "/" + b;
      assert ("/" + b)[1..] == b;
    } else {
      assert (a + "/" + b)[0] == a[0];
      assert (a + "/" + b)[1..] == a[1..] + "/" + b;
      SplitAtSlash(a[1..], b);
    }
  }

  lemma {:induction false} SplitNoSlash(a: string)
    requires '/' !in a
    ensures Split(a) == [a]
    decreases |a|
  {
    if a != [] {
      assert '/' !in a[1..];
      SplitNoSlash(a[1..]);
      assert a == [a[0]] + a[1..];
    }
  }

  /** Joining keys that hold no slash and splitting the result gives the keys
      back: a separator stands only between consecutive keys. */
  lemma {:induction false} SplitJoin(keys: seq<string>)
    requires |keys| >= 1
    requires forall i :: 0 <= i < |keys| ==> '/' !in keys[i]
    ensures Split(Join(keys, "/")) == keys
    decreases |keys|
  {
    SplitNoSlash(keys[0]);
    if |keys| > 1 {
      SplitAtSlash(keys[0], Join(keys[1..], "/"));
      SplitJoin(keys[1..]);
      assert keys == [keys[0]] + keys[1..];
    }
  }

  /** The segments of a built topic are the root's segments followed by the
      keys, one segment per key, in order. */
  lemma TopicSegments(root: string, keys: seq<string>)
    requires |keys| >= 1
    requires forall i :: 0 <= i < |keys| ==> '/' !in keys[i]
    ensures Split(TopicOf(root, keys)) == Split(root) + keys
  {
    SplitAtSlash(root, Join(keys, "/"));
    SplitJoin(keys);
  }

  /** The device identifier the whitelist is written for. */
  const HardcodedRoot := "robotling_30aea42664a8"

  const MotorLoadTopic := "robotling_30aea42664a8/power/motor_load"
  const BatteryTopic := "robotling_30aea42664a8/power/battery_V"
  const PitchTopic := "robotling_30aea42664a8/sensor/compass/pitch_deg"
  const HeadingTopic := "robotling_30aea42664a8/sensor/compass/heading_deg"
  const RollTopic := "robotling_30aea42664a8/sensor/compass/roll_deg"
  const DistanceTopic := "robotling_30aea42664a8/sensor/distance_cm"
  const StateTopic := "robotling_30aea42664a8/state"
  const TimestampTopic := "robotling_30aea42664a8/timestamp_s"

  /** The eight topics whose values are stored, in declaration order. */
  const StatusTopics: seq<string> :=
    [MotorLoadTopic, BatteryTopic, PitchTopic, HeadingTopic,
     RollTopic, DistanceTopic, StateTopic, TimestampTopic]

  /** Two slash-free heads in front of a slash are equal when the strings are. */
  lemma HeadBeforeSlash(a: string, x: string, b: string, y: string)
    requires '/' !in a && '/' !in b
    requires a + "/" + x == b + "/" + y
    ensures a == b
  {
    SplitAtSlash(a, x);
    SplitAtSlash(b, y);
    SplitNoSlash(a);
    SplitNoSlash(b);
    assert Split(a + "/" + x)[0] == a;
  }

  /** Every whitelisted topic lies under the hard-coded root. */
  lemma WhitelistUnderHardcodedRoot(i: nat)
    requires i < |StatusTopics|
    ensures StatusTopics[i] == HardcodedRoot + "/" + StatusTopics[i][|HardcodedRoot| + 1..]
  {
  }

  /** Topics are built from the configured root but the whitelist is written
      for one device: under any other root without a slash, no key chain
      yields a whitelisted topic. */
  lemma ForeignRootAcceptsNothing(root: string, keys: seq<string>)
    requires '/' !in root && root != HardcodedRoot
    ensures TopicOf(root, keys) !in StatusTopics
  {
    if TopicOf(root, keys) in StatusTopics {
      var i :| 0 <= i < |StatusTopics| && StatusTopics[i] == TopicOf(root, keys);
      WhitelistUnderHardcodedRoot(i);
      assert '/' !in HardcodedRoot;
      HeadBeforeSlash(root, Join(keys, "/"), HardcodedRoot, StatusTopics[i][|HardcodedRoot| + 1..]);
    }
  }
}
