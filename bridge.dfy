/**
 * The bridge between the broker and the status table: a single-slot mailbox
 * the message callback overwrites, the connection flag the callbacks and the
 * polling loop maintain, and the consume step that turns the pending payload
 * into one stored row.
 */
module Bridge {
  import opened Wrappers
  import opened Snapshot
  import opened Row

  /** Decodes a payload into the members of its top-level mapping, or fails. */
  type Parser = string -> Option<seq<(string, Node)>>

  /** The snapshot gives a row the table accepts: every list-valued field is
      long enough and the row has one value per column. */
  predicate Storable(root: string, data: seq<(string, Node)>)
  {
    AllExpandable(root, Flatten(data)) && |Status(root, Flatten(data))| == |Schema|
  }

  /** Consuming `msg` cannot fail: either it decodes to nothing or to an
      empty mapping, or its row is storable. */
  predicate Deliverable(root: string, parse: Parser, msg: string)
  {
    parse(msg).Some? && parse(msg).value != [] ==> Storable(root, parse(msg).value)
  }

  /** The row the consume step stores for a claimed payload: none when the
      payload does not decode or decodes to an empty mapping. */
  function RowOf(root: string, parse: Parser, msg: string): (r: Option<seq<string>>)
    requires Deliverable(root, parse, msg)
    ensures r.Some? <==> parse(msg).Some? && parse(msg).value != []
    ensures r.Some? ==> |r.value| == |Schema|
  {
    match parse(msg)
    case None => None
    case Some(data) => if data == [] then None else Some(Status(root, Flatten(data)))
  }

  /** The status table: the rows inserted so far, oldest first. */
  class StatusTable {
    var rows: seq<seq<string>>

    constructor ()
      ensures rows == []
    {
      rows := [];
    }

    /** Inserts one record; the table has eleven columns. */
    method CreateStatus(status: seq<string>)
      requires |status| == |Schema|
      modifies this
      ensures rows == old(rows) + [status]
    {
      rows := rows + [status];
    }
  }

  /** One happening of the running bridge, in the order it happens. */
  datatype Event =
    | Delivered(payload: string)   // the broker hands over a message
    | ConnectAck(rc: int)          // the broker answers a connect
    | Dropped                      // the broker session ends
    | Tick(refused: bool)          // one pass of the polling loop; `refused`
                                   // says whether a connect attempt would be refused

  class Bridge {
    const root: string
    const conn: StatusTable
    var lastMsg: string
    var isNewMsg: bool
    var isConnected: bool

    constructor (root: string, conn: StatusTable)
      ensures this.root == root && this.conn == conn
      ensures lastMsg == "" && !isNewMsg && !isConnected
    {
      this.root := root;
      this.conn := conn;
      lastMsg := "";
      isNewMsg := false;
      isConnected := false;
    }

    /** The payload waiting in the mailbox, if the loop would claim it now,
        can be consumed. */
    ghost predicate Ready(parse: Parser)
      reads this
    {
      isNewMsg && |lastMsg| > 0 ==> Deliverable(root, parse, lastMsg)
    }

    /** Message callback: the new payload replaces whatever the mailbox
        held, and the mailbox is marked fresh. */
    method OnMessage(payload: string)
      modifies this
      ensures lastMsg == payload && isNewMsg
      ensures isConnected == old(isConnected)
    {
      lastMsg := payload;
      isNewMsg := true;
    }

    /** Connect callback: a zero return code marks the bridge connected;
        any other code leaves the flag as it was. */
    method OnConnect(rc: int)
      modifies this
      ensures isConnected == (old(isConnected) || rc == 0)
      ensures lastMsg == old(lastMsg) && isNewMsg == old(isNewMsg)
    {
      if rc == 0 {
        isConnected := true;
      }
    }

    /** Disconnect callback. */
    method OnDisconnect()
      modifies this
      ensures !isConnected
      ensures lastMsg == old(lastMsg) && isNewMsg == old(isNewMsg)
    {
      isConnected := false;
    }

    /** The loop's connect attempt: connected unless the broker refuses. */
    method TryConnect(refused: bool)
      modifies this
      ensures isConnected == (old(isConnected) || !refused)
      ensures lastMsg == old(lastMsg) && isNewMsg == old(isNewMsg)
    {
      if !refused {
        isConnected := true;
      }
    }

    /** The loop's consume step: claims a fresh, non-empty payload, clears
        the freshness flag whether or not the payload decodes, and stores at
        most one row, the one built from the claimed payload. */
    method Consume(parse: Parser) returns (inserted: bool)
      requires Ready(parse)
      modifies this, conn
      ensures lastMsg == old(lastMsg) && isConnected == old(isConnected)
      ensures isNewMsg == (old(isNewMsg) && |old(lastMsg)| == 0)
      ensures inserted <==> old(isNewMsg) && |old(lastMsg)| > 0 &&
                            RowOf(root, parse, old(lastMsg)).Some?
      ensures conn.rows == if inserted then old(conn.rows) + [RowOf(root, parse, old(lastMsg)).value]
                           else old(conn.rows)
    {
      var data: Option<seq<(string, Node)>> := None;
      if isNewMsg && |lastMsg| > 0 {
        data := parse(lastMsg);
        isNewMsg := false;
      }
      inserted := false;
      if data.Some? && data.value != [] {
        var status := BuildStatus(root, data.value);
        conn.CreateStatus(status);
        inserted := true;
      }
    }

    /** The read half of the consume step as `mqtt_to_sqlite.py` writes it
        at lines 143-153: a fresh, non-empty payload is decoded while the
        lock is held, and the freshness flag is left for later. */
    method ClaimAsWritten(parse: Parser) returns (data: Option<seq<(string, Node)>>)
      ensures isNewMsg && |lastMsg| > 0 ==> data == parse(lastMsg)
      ensures !(isNewMsg && |lastMsg| > 0) ==> data == None
    {
      data := None;
      if isNewMsg && |lastMsg| > 0 {
        data := parse(lastMsg);
      }
    }

    /** The statement at line 154 of `mqtt_to_sqlite.py`: the freshness flag
        is cleared after the lock is released. */
    method ClearFresh()
      modifies this
      ensures !isNewMsg
      ensures lastMsg == old(lastMsg) && isConnected == old(isConnected)
    {
      isNewMsg := false;
    }

    /** One pass of the polling loop: connect while disconnected, consume
        while connected. */
    method Step(parse: Parser, refused: bool) returns (inserted: bool)
      requires isConnected ==> Ready(parse)
      modifies this, conn
      ensures lastMsg == old(lastMsg)
      ensures !old(isConnected) ==>
                isConnected == !refused && isNewMsg == old(isNewMsg) &&
                !inserted && conn.rows == old(conn.rows)
      ensures old(isConnected) ==>
                isConnected &&
                isNewMsg == (old(isNewMsg) && |old(lastMsg)| == 0) &&
                (inserted <==> old(isNewMsg) && |old(lastMsg)| > 0 &&
                               RowOf(root, parse, old(lastMsg)).Some?) &&
                conn.rows == if inserted then old(conn.rows) + [RowOf(root, parse, old(lastMsg)).value]
                             else old(conn.rows)
    {
      if !isConnected {
        TryConnect(refused);
        inserted := false;
      } else {
        inserted := Consume(parse);
      }
    }

    /** Handles one event: a delivery or a broker callback runs its callback,
        a tick is one pass of the polling loop. */
    method Dispatch(parse: Parser, e: Event) returns (inserted: bool)
      requires e.Tick? && isConnected ==> Ready(parse)
      modifies this, conn
      ensures Moves(root, parse, e, old(isConnected), old(isNewMsg), old(lastMsg), old(conn.rows),
                    inserted, isConnected, isNewMsg, lastMsg, conn.rows)
    {
      match e
      case Delivered(p) => OnMessage(p); inserted := false;
      case ConnectAck(rc) => OnConnect(rc); inserted := false;
      case Dropped => OnDisconnect(); inserted := false;
      case Tick(refused) => inserted := Step(parse, refused);
    }

    /** Runs the bridge through a sequence of events. The pass at index `i`
        claims the mailbox exactly when `Claims(.., i)` holds, and only such a
        claimed payload has to be storable. `at` lists the passes that added a
        row and `src` the payload each row was built from: the index of the
        delivery in `events`, or -1 for a payload already waiting at the
        start. Each row is the row of the newest payload delivered before its
        pass, every claiming pass whose payload gives a row adds one, and the
        payload indices strictly increase, so no payload is stored twice and
        rows are added in delivery order. */
    method Run(parse: Parser, events: seq<Event>) returns (ghost at: seq<int>, ghost src: seq<int>)
      requires forall i :: (0 <= i < |events| && events[i].Tick? &&
                            Claims(isConnected, isNewMsg, lastMsg, events, i)) ==>
                 Deliverable(root, parse, MailboxAt(lastMsg, events, i))
      modifies this, conn
      ensures isConnected == ConnectedAt(old(isConnected), events, |events|)
      ensures isNewMsg == PendingAt(old(isConnected), old(isNewMsg), old(lastMsg), events, |events|)
      ensures lastMsg == MailboxAt(old(lastMsg), events, |events|)
      ensures |conn.rows| == |old(conn.rows)| + |src| && conn.rows[..|old(conn.rows)|] == old(conn.rows)
      ensures |at| == |src|
      ensures forall k :: 0 <= k < |at| ==>
                0 <= at[k] < |events| && events[at[k]].Tick? &&
                Claims(old(isConnected), old(isNewMsg), old(lastMsg), events, at[k]) &&
                src[k] == LastDelivered(events, at[k])
      ensures forall i :: (0 <= i < |events| && events[i].Tick? &&
                           Claims(old(isConnected), old(isNewMsg), old(lastMsg), events, i) &&
                           Yields(root, parse, MailboxAt(old(lastMsg), events, i))) ==> i in at
      ensures forall k :: 0 <= k < |src| ==> Source(events, src[k])
      ensures forall k :: 0 <= k < |src| && src[k] == -1 ==> old(isNewMsg)
      ensures forall k, l :: 0 <= k < l < |src| ==> src[k] < src[l]
      ensures forall k :: 0 <= k < |src| ==>
                StoredFrom(root, parse, PayloadAt(old(lastMsg), events, src[k]),
                           conn.rows[|old(conn.rows)| + k])
      ensures |conn.rows| + (if isNewMsg then 1 else 0)
              <= |old(conn.rows)| + (if old(isNewMsg) then 1 else 0) + Deliveries(events)
    {
      at, src := [], [];
      ghost var cur := -1;
      RunStart(root, parse, isConnected, isNewMsg, lastMsg, events, conn.rows);
      for i := 0 to |events|
        invariant RunInv(root, parse, old(isConnected), old(isNewMsg), old(lastMsg), events,
                         old(conn.rows), i, isConnected, isNewMsg, lastMsg, conn.rows, at, src, cur)
        invariant |conn.rows| + (if isNewMsg then 1 else 0)
                  <= |old(conn.rows)| + (if old(isNewMsg) then 1 else 0) + Deliveries(events[..i])
      {
        at, src, cur := Advance(parse, events, i, old(isConnected), old(isNewMsg), old(lastMsg),
                                old(conn.rows), |old(conn.rows)| + (if old(isNewMsg) then 1 else 0),
                                at, src, cur);
      }
      RunEnd(root, parse, old(isConnected), old(isNewMsg), old(lastMsg), events, old(conn.rows),
             |old(conn.rows)| + (if old(isNewMsg) then 1 else 0),
             isConnected, isNewMsg, lastMsg, conn.rows, at, src, cur);
    }

    /** One event of `Run`: dispatches `events[i]` and keeps `RunInv` and
        the count bound. */
    method Advance(parse: Parser, events: seq<Event>, i: nat,
                   ghost c0: bool, ghost f0: bool, ghost init: string, ghost rows0: seq<seq<string>>,
                   ghost base: nat, ghost at: seq<int>, ghost src: seq<int>, ghost cur: int)
      returns (ghost at': seq<int>, ghost src': seq<int>, ghost cur': int)
      requires i < |events|
      requires (events[i].Tick? && Claims(c0, f0, init, events, i)) ==>
                 Deliverable(root, parse, MailboxAt(init, events, i))
      requires RunInv(root, parse, c0, f0, init, events, rows0, i,
                      isConnected, isNewMsg, lastMsg, conn.rows, at, src, cur)
      requires |conn.rows| + (if isNewMsg then 1 else 0) <= base + Deliveries(events[..i])
      modifies this, conn
      ensures RunInv(root, parse, c0, f0, init, events, rows0, i + 1,
                     isConnected, isNewMsg, lastMsg, conn.rows, at', src', cur')
      ensures |conn.rows| + (if isNewMsg then 1 else 0) <= base + Deliveries(events[..i + 1])
    {
      ghost var c, f, l, rows := isConnected, isNewMsg, lastMsg, conn.rows;
      if events[i].Tick? {
        InvTick(root, parse, c0, f0, init, events, rows0, i, c, f, l, rows, at, src, cur);
      }
      var inserted := Dispatch(parse, events[i]);
      InvEvent(root, parse, c0, f0, init, events, rows0, i, c, f, l, rows, at, src, cur,
               inserted, isConnected, isNewMsg, lastMsg, conn.rows);
      CountStep(events, i, base, |rows| + (if f then 1 else 0),
                |conn.rows| + (if isNewMsg then 1 else 0));
      cur' := if events[i].Delivered? then i else cur;
      at', src' := if inserted then at + [i] else at, if inserted then src + [cur] else src;
    }
  }

  lemma RunStart(root: string, parse: Parser, c0: bool, f0: bool, init: string,
                 events: seq<Event>, rows0: seq<seq<string>>)
    ensures RunInv(root, parse, c0, f0, init, events, rows0, 0, c0, f0, init, rows0, [], [], -1)
  {
    assert rows0[..|rows0|] == rows0;
  }

  /** The count of rows plus a pending payload grows by at most one per
      delivery. */
  lemma CountStep(events: seq<Event>, i: nat, base: nat, before: nat, after: nat)
    requires i < |events|
    requires before <= base + Deliveries(events[..i])
    requires after <= before + (if events[i].Delivered? then 1 else 0)
    ensures after <= base + Deliveries(events[..i + 1])
  {
    DeliveriesSnoc(events[..i], events[i]);
    assert events[..i + 1] == events[..i] + [events[i]];
  }

  lemma RunEnd(root: string, parse: Parser, c0: bool, f0: bool, init: string,
               events: seq<Event>, rows0: seq<seq<string>>, base: nat,
               connected: bool, pending: bool, last: string, rows: seq<seq<string>>,
               at: seq<int>, src: seq<int>, cur: int)
    requires RunInv(root, parse, c0, f0, init, events, rows0, |events|, connected, pending, last, rows,
                    at, src, cur)
    requires |rows| + (if pending then 1 else 0) <= base + Deliveries(events[..|events|])
    ensures |rows| + (if pending then 1 else 0) <= base + Deliveries(events)
    ensures connected == ConnectedAt(c0, events, |events|)
    ensures pending == PendingAt(c0, f0, init, events, |events|)
    ensures last == MailboxAt(init, events, |events|)
    ensures |rows| == |rows0| + |src| && rows[..|rows0|] == rows0
    ensures |at| == |src|
    ensures forall k :: 0 <= k < |at| ==>
              0 <= at[k] < |events| && events[at[k]].Tick? &&
              Claims(c0, f0, init, events, at[k]) && src[k] == LastDelivered(events, at[k])
    ensures forall i :: (0 <= i < |events| && events[i].Tick? && Claims(c0, f0, init, events, i) &&
                         Yields(root, parse, MailboxAt(init, events, i))) ==> i in at
    ensures forall k :: 0 <= k < |src| ==> Source(events, src[k])
    ensures forall k :: 0 <= k < |src| && src[k] == -1 ==> f0
    ensures forall k, l :: 0 <= k < l < |src| ==> src[k] < src[l]
    ensures forall k :: 0 <= k < |src| ==>
              StoredFrom(root, parse, PayloadAt(init, events, src[k]), rows[|rows0| + k])
  {
    assert events[..|events|] == events;
  }

  /** The stored rows of `msg` exist: its consume step cannot fail and gives a
      row. */
  predicate Yields(root: string, parse: Parser, msg: string)
  {
    Deliverable(root, parse, msg) && RowOf(root, parse, msg).Some?
  }

  /** What `Run` keeps after the first `i` events: the flags and the mailbox
      are those the events determine, `Logged` holds, and `at` lists exactly
      the claiming passes so far whose payload gave a row, each paired in
      `src` with the newest delivery before it. */
  ghost predicate RunInv(root: string, parse: Parser, c0: bool, f0: bool, init: string,
                         events: seq<Event>, rows0: seq<seq<string>>, i: nat,
                         connected: bool, pending: bool, last: string, rows: seq<seq<string>>,
                         at: seq<int>, src: seq<int>, cur: int)
  {
    i <= |events| && cur == LastDelivered(events, i) &&
    connected == ConnectedAt(c0, events, i) &&
    pending == PendingAt(c0, f0, init, events, i) &&
    Logged(root, parse, init, f0, events, rows0, rows, src, cur, pending, last) &&
    AtLog(c0, f0, init, events, i, at, src) &&
    Complete(root, parse, c0, f0, init, events, i, at)
  }

  /** Each logged pass `at[k]`, made before event `i`, claimed the mailbox,
      and its row came from the newest delivery before it. */
  ghost predicate AtLog(c0: bool, f0: bool, init: string, events: seq<Event>, i: nat,
                        at: seq<int>, src: seq<int>)
    requires i <= |events|
  {
    |at| == |src| &&
    forall k :: 0 <= k < |at| ==>
      0 <= at[k] < i && events[at[k]].Tick? && Claims(c0, f0, init, events, at[k]) &&
      src[k] == LastDelivered(events, at[k])
  }

  /** Every pass before event `i` that claimed a payload giving a row is
      logged in `at`. */
  ghost predicate Complete(root: string, parse: Parser, c0: bool, f0: bool, init: string,
                           events: seq<Event>, i: nat, at: seq<int>)
    requires i <= |events|
  {
    forall j :: (0 <= j < i && events[j].Tick? && Claims(c0, f0, init, events, j) &&
                 Yields(root, parse, MailboxAt(init, events, j))) ==> j in at
  }

  lemma AtLogGrow(c0: bool, f0: bool, init: string, events: seq<Event>, i: nat,
                  at: seq<int>, src: seq<int>)
    requires i < |events| && AtLog(c0, f0, init, events, i, at, src)
    ensures AtLog(c0, f0, init, events, i + 1, at, src)
  {
  }

  lemma AtLogStore(c0: bool, f0: bool, init: string, events: seq<Event>, i: nat,
                   at: seq<int>, src: seq<int>, cur: int)
    requires i < |events| && AtLog(c0, f0, init, events, i, at, src)
    requires events[i].Tick? && Claims(c0, f0, init, events, i) && cur == LastDelivered(events, i)
    ensures AtLog(c0, f0, init, events, i + 1, at + [i], src + [cur])
  {
    var at', src' := at + [i], src + [cur];
    forall k | 0 <= k < |at'|
      ensures 0 <= at'[k] < i + 1 && events[at'[k]].Tick? && Claims(c0, f0, init, events, at'[k]) &&
              src'[k] == LastDelivered(events, at'[k])
    {
      if k < |at| {
        assert at'[k] == at[k] && src'[k] == src[k];
      }
    }
  }

  lemma CompleteGrow(root: string, parse: Parser, c0: bool, f0: bool, init: string,
                     events: seq<Event>, i: nat, at: seq<int>)
    requires i < |events| && Complete(root, parse, c0, f0, init, events, i, at)
    requires !(events[i].Tick? && Claims(c0, f0, init, events, i) &&
               Yields(root, parse, MailboxAt(init, events, i)))
    ensures Complete(root, parse, c0, f0, init, events, i + 1, at)
  {
  }

  lemma CompleteStore(root: string, parse: Parser, c0: bool, f0: bool, init: string,
                      events: seq<Event>, i: nat, at: seq<int>)
    requires i < |events| && Complete(root, parse, c0, f0, init, events, i, at)
    ensures Complete(root, parse, c0, f0, init, events, i + 1, at + [i])
  {
    forall j | (0 <= j < i + 1 && events[j].Tick? && Claims(c0, f0, init, events, j) &&
                Yields(root, parse, MailboxAt(init, events, j)))
      ensures j in at + [i]
    {
      if j < i {
        assert j in at;
      } else {
        assert (at + [i])[|at|] == j;
      }
    }
  }

  /** How one event changes the bridge's state `(c, f, l, rows)` into
      `(c', f', l', rows')`, and whether it added a row: a delivery fills the
      mailbox, an acknowledgement with code 0 connects, a drop disconnects,
      and a loop pass either tries to connect or claims the mailbox. */
  ghost predicate Moves(root: string, parse: Parser, e: Event,
                        c: bool, f: bool, l: string, rows: seq<seq<string>>,
                        inserted: bool, c': bool, f': bool, l': string, rows': seq<seq<string>>)
  {
    && (!e.Tick? ==> !inserted && rows' == rows)
    && (e.Delivered? ==> l' == e.payload && f' && c' == c)
    && (e.ConnectAck? ==> c' == (c || e.rc == 0) && l' == l && f' == f)
    && (e.Dropped? ==> !c' && l' == l && f' == f)
    && (e.Tick? ==> l' == l)
    && (e.Tick? && !c ==> c' == !e.refused && f' == f && !inserted && rows' == rows)
    && (e.Tick? && c ==>
          c' && f' == (f && |l| == 0) &&
          (inserted <==> f && |l| > 0 && Yields(root, parse, l)) &&
          rows' == if inserted then rows + [RowOf(root, parse, l).value] else rows)
  }

  /** One event keeps `RunInv`, whatever it is, given how `Dispatch` changes
      the state. */
  lemma InvEvent(root: string, parse: Parser, c0: bool, f0: bool, init: string,
                 events: seq<Event>, rows0: seq<seq<string>>, i: nat,
                 c: bool, f: bool, l: string, rows: seq<seq<string>>,
                 at: seq<int>, src: seq<int>, cur: int,
                 inserted: bool, c': bool, f': bool, l': string, rows': seq<seq<string>>)
    requires RunInv(root, parse, c0, f0, init, events, rows0, i, c, f, l, rows, at, src, cur)
    requires i < |events|
    requires events[i].Tick? && c && f && |l| > 0 ==> Deliverable(root, parse, l)
    requires Moves(root, parse, events[i], c, f, l, rows, inserted, c', f', l', rows')
    ensures RunInv(root, parse, c0, f0, init, events, rows0, i + 1, c', f', l', rows',
                   if inserted then at + [i] else at,
                   if inserted then src + [cur] else src,
                   if events[i].Delivered? then i else cur)
  {
    match events[i]
    case Delivered(_) =>
      InvDeliver(root, parse, c0, f0, init, events, rows0, i, c, f, l, rows, at, src, cur);
    case ConnectAck(_) =>
      InvOther(root, parse, c0, f0, init, events, rows0, i, c, f, l, rows, at, src, cur);
    case Dropped =>
      InvOther(root, parse, c0, f0, init, events, rows0, i, c, f, l, rows, at, src, cur);
    case Tick(_) =>
      InvTick(root, parse, c0, f0, init, events, rows0, i, c, f, l, rows, at, src, cur);
      if inserted {
        InvStore(root, parse, c0, f0, init, events, rows0, i, f, l, rows, at, src, cur);
      }
  }

  lemma InvDeliver(root: string, parse: Parser, c0: bool, f0: bool, init: string,
                   events: seq<Event>, rows0: seq<seq<string>>, i: nat,
                   connected: bool, pending: bool, last: string, rows: seq<seq<string>>,
                   at: seq<int>, src: seq<int>, cur: int)
    requires RunInv(root, parse, c0, f0, init, events, rows0, i, connected, pending, last, rows, at, src, cur)
    requires i < |events| && events[i].Delivered?
    ensures RunInv(root, parse, c0, f0, init, events, rows0, i + 1, connected, true,
                   events[i].payload, rows, at, src, i)
  {
    LoggedDeliver(root, parse, init, f0, events, rows0, rows, src, cur, pending, last, i);
    AtLogGrow(c0, f0, init, events, i, at, src);
    CompleteGrow(root, parse, c0, f0, init, events, i, at);
    assert LastDelivered(events, i + 1) == i;
  }

  lemma InvOther(root: string, parse: Parser, c0: bool, f0: bool, init: string,
                 events: seq<Event>, rows0: seq<seq<string>>, i: nat,
                 connected: bool, pending: bool, last: string, rows: seq<seq<string>>,
                 at: seq<int>, src: seq<int>, cur: int)
    requires RunInv(root, parse, c0, f0, init, events, rows0, i, connected, pending, last, rows, at, src, cur)
    requires i < |events| && (events[i].ConnectAck? || events[i].Dropped?)
    ensures RunInv(root, parse, c0, f0, init, events, rows0, i + 1,
                   if events[i].Dropped? then false else connected || events[i].rc == 0,
                   pending, last, rows, at, src, cur)
  {
    AtLogGrow(c0, f0, init, events, i, at, src);
    CompleteGrow(root, parse, c0, f0, init, events, i, at);
  }

  /** A pass that adds no row: the flags move as the events determine and
      nothing is logged. Also gives what the pass needs of the mailbox. */
  lemma InvTick(root: string, parse: Parser, c0: bool, f0: bool, init: string,
                events: seq<Event>, rows0: seq<seq<string>>, i: nat,
                connected: bool, pending: bool, last: string, rows: seq<seq<string>>,
                at: seq<int>, src: seq<int>, cur: int)
    requires RunInv(root, parse, c0, f0, init, events, rows0, i, connected, pending, last, rows, at, src, cur)
    requires i < |events| && events[i].Tick?
    ensures last == MailboxAt(init, events, i)
    ensures Claims(c0, f0, init, events, i) <==> connected && pending && |last| > 0
    ensures !(connected && pending && |last| > 0 && Yields(root, parse, last)) ==>
              RunInv(root, parse, c0, f0, init, events, rows0, i + 1,
                     connected || !events[i].refused,
                     if connected then pending && |last| == 0 else pending,
                     last, rows, at, src, cur)
  {
    if !(connected && pending && |last| > 0 && Yields(root, parse, last)) {
      AtLogGrow(c0, f0, init, events, i, at, src);
      CompleteGrow(root, parse, c0, f0, init, events, i, at);
    }
  }

  /** A pass that claims a payload and stores its row. */
  lemma InvStore(root: string, parse: Parser, c0: bool, f0: bool, init: string,
                 events: seq<Event>, rows0: seq<seq<string>>, i: nat,
                 pending: bool, last: string, rows: seq<seq<string>>,
                 at: seq<int>, src: seq<int>, cur: int)
    requires RunInv(root, parse, c0, f0, init, events, rows0, i, true, pending, last, rows, at, src, cur)
    requires i < |events| && events[i].Tick?
    requires pending && |last| > 0 && Yields(root, parse, last)
    ensures RunInv(root, parse, c0, f0, init, events, rows0, i + 1, true, false, last,
                   rows + [RowOf(root, parse, last).value], at + [i], src + [cur], cur)
  {
    LoggedStore(root, parse, init, f0, events, rows0, rows, src, cur, last);
    assert LastDelivered(events, i + 1) == cur;
    assert MailboxAt(init, events, i) == last;
    assert ConnectedAt(c0, events, i + 1) && !PendingAt(c0, f0, init, events, i + 1);
    assert Claims(c0, f0, init, events, i);
    AtLogStore(c0, f0, init, events, i, at, src, cur);
    CompleteStore(root, parse, c0, f0, init, events, i, at);
  }

  /** The index of the newest delivery before event `i`, or -1 when there is
      none: the payload the mailbox holds when event `i` happens. */
  function LastDelivered(events: seq<Event>, i: nat): (r: int)
    requires i <= |events|
    ensures Source(events, r) && r < i
    ensures forall j :: r < j < i ==> !events[j].Delivered?
  {
    if i == 0 then -1
    else if events[i - 1].Delivered? then i - 1
    else LastDelivered(events, i - 1)
  }

  /** The mailbox's payload when event `i` happens; `init` is the payload it
      held at the start. */
  function MailboxAt(init: string, events: seq<Event>, i: nat): string
    requires i <= |events|
  {
    PayloadAt(init, events, LastDelivered(events, i))
  }

  /** The connection flag when event `i` happens, starting from `c0`: a zero
      return code or a connect attempt that is not refused sets it, a
      disconnect clears it. */
  function ConnectedAt(c0: bool, events: seq<Event>, i: nat): bool
    requires i <= |events|
  {
    if i == 0 then c0
    else
      var c := ConnectedAt(c0, events, i - 1);
      match events[i - 1]
      case Delivered(_) => c
      case ConnectAck(rc) => c || rc == 0
      case Dropped => false
      case Tick(refused) => c || !refused
  }

  /** The freshness flag when event `i` happens: a delivery sets it, a pass
      made while connected clears it unless the mailbox is empty. */
  function PendingAt(c0: bool, f0: bool, init: string, events: seq<Event>, i: nat): bool
    requires i <= |events|
  {
    if i == 0 then f0
    else
      var f := PendingAt(c0, f0, init, events, i - 1);
      match events[i - 1]
      case Delivered(_) => true
      case Tick(_) =>
        if ConnectedAt(c0, events, i - 1) then f && |MailboxAt(init, events, i - 1)| == 0 else f
      case _ => f
  }

  /** A pass at event `i` claims the mailbox: the bridge is connected, and the
      mailbox is fresh and not empty. */
  predicate Claims(c0: bool, f0: bool, init: string, events: seq<Event>, i: nat)
    requires i <= |events|
  {
    ConnectedAt(c0, events, i) && PendingAt(c0, f0, init, events, i) &&
    |MailboxAt(init, events, i)| > 0
  }

  /** The bookkeeping `Run` keeps: `src` names the payload each added row was
      built from, strictly increasing and never past `cur`, the payload the
      mailbox holds; while the mailbox is fresh `cur` is not yet stored. */
  ghost predicate Logged(root: string, parse: Parser, init: string, initFresh: bool,
                         events: seq<Event>, rows0: seq<seq<string>>, rows: seq<seq<string>>,
                         src: seq<int>, cur: int, pending: bool, last: string)
  {
    Source(events, cur) && last == PayloadAt(init, events, cur) &&
    (cur == -1 && pending ==> initFresh) &&
    |rows| == |rows0| + |src| && rows[..|rows0|] == rows0 &&
    (forall k :: 0 <= k < |src| ==> Source(events, src[k])) &&
    (forall k :: 0 <= k < |src| && src[k] == -1 ==> initFresh) &&
    (forall k, l :: 0 <= k < l < |src| ==> src[k] < src[l]) &&
    (forall k :: 0 <= k < |src| ==> src[k] <= cur) &&
    (pending ==> forall k :: 0 <= k < |src| ==> src[k] < cur) &&
    (forall k :: 0 <= k < |src| ==>
       StoredFrom(root, parse, PayloadAt(init, events, src[k]), rows[|rows0| + k]))
  }

  /** A delivery later than every stored payload becomes the fresh one. */
  lemma LoggedDeliver(root: string, parse: Parser, init: string, initFresh: bool,
                      events: seq<Event>, rows0: seq<seq<string>>, rows: seq<seq<string>>,
                      src: seq<int>, cur: int, pending: bool, last: string, i: int)
    requires Logged(root, parse, init, initFresh, events, rows0, rows, src, cur, pending, last)
    requires cur < i < |events| && events[i].Delivered?
    ensures Logged(root, parse, init, initFresh, events, rows0, rows, src, i, true, events[i].payload)
  {
  }

  /** Storing the row of the fresh payload logs its index and makes the
      mailbox stale. */
  lemma LoggedStore(root: string, parse: Parser, init: string, initFresh: bool,
                    events: seq<Event>, rows0: seq<seq<string>>, rows: seq<seq<string>>,
                    src: seq<int>, cur: int, last: string)
    requires Logged(root, parse, init, initFresh, events, rows0, rows, src, cur, true, last)
    requires Deliverable(root, parse, last) && RowOf(root, parse, last).Some?
    ensures Logged(root, parse, init, initFresh, events, rows0, rows + [RowOf(root, parse, last).value],
                   src + [cur], cur, false, last)
  {
    var rows' := rows + [RowOf(root, parse, last).value];
    var src' := src + [cur];
    assert rows'[..|rows0|] == rows[..|rows0|];
    assert StoredFrom(root, parse, PayloadAt(init, events, src'[|src|]), rows'[|rows0| + |src|]);
    forall k | 0 <= k < |src|
      ensures StoredFrom(root, parse, PayloadAt(init, events, src'[k]), rows'[|rows0| + k])
    {
      assert rows'[|rows0| + k] == rows[|rows0| + k] && src'[k] == src[k];
    }
  }

  /** `idx` names a payload: -1 for the one waiting at the start, otherwise a
      delivery among `events`. */
  predicate Source(events: seq<Event>, idx: int)
  {
    idx == -1 || (0 <= idx < |events| && events[idx].Delivered?)
  }

  /** The payload `idx` names; `init` is the one waiting at the start. */
  function PayloadAt(init: string, events: seq<Event>, idx: int): string
    requires Source(events, idx)
  {
    if idx == -1 then init else events[idx].payload
  }

  /** `row` is the row the consume step stores for the payload `msg`. */
  predicate StoredFrom(root: string, parse: Parser, msg: string, row: seq<string>)
  {
    Deliverable(root, parse, msg) && RowOf(root, parse, msg) == Some(row)
  }

  /** The number of messages delivered in a run of events. */
  function Deliveries(events: seq<Event>): nat
  {
    if events == [] then 0
    else Deliveries(events[..|events| - 1]) + (if events[|events| - 1].Delivered? then 1 else 0)
  }

  lemma DeliveriesSnoc(events: seq<Event>, e: Event)
    ensures Deliveries(events + [e]) == Deliveries(events) + (if e.Delivered? then 1 else 0)
  {
    assert (events + [e])[..|events|] == events;
  }

  /** Two deliveries before one pass of the loop: only the second payload is
      stored, and a further pass stores nothing. */
  method NewestWins(root: string, parse: Parser, first: string, second: string)
    returns (rows: seq<seq<string>>, again: bool)
    requires |second| > 0 && Deliverable(root, parse, second)
    ensures rows == if RowOf(root, parse, second).Some? then [RowOf(root, parse, second).value] else []
    ensures !again
  {
    var table := new StatusTable();
    var bridge := new Bridge(root, table);
    var _ := bridge.Step(parse, false);
    bridge.OnMessage(first);
    bridge.OnMessage(second);
    var _ := bridge.Step(parse, false);
    again := bridge.Step(parse, false);
    rows := table.rows;
  }

  /** The consume step as written, with a delivery landing between the lock's
      release and the clearing of the flag (lines 153 and 154 of
      `mqtt_to_sqlite.py`): the first payload is stored, the second stays
      in the mailbox marked stale, and no later pass stores it. */
  method LateDeliveryLostAsWritten(root: string, parse: Parser, first: string, second: string)
    returns (rows: seq<seq<string>>, waiting: string, again: bool)
    requires |first| > 0 && Deliverable(root, parse, first)
    requires |second| > 0 && Deliverable(root, parse, second)
    ensures rows == if RowOf(root, parse, first).Some? then [RowOf(root, parse, first).value] else []
    ensures waiting == second && !again
  {
    var table := new StatusTable();
    var bridge := new Bridge(root, table);
    var _ := bridge.Step(parse, false);
    bridge.OnMessage(first);
    var data := bridge.ClaimAsWritten(parse);
    bridge.OnMessage(second);
    bridge.ClearFresh();
    if data.Some? && data.value != [] {
      var status := BuildStatus(root, data.value);
      table.CreateStatus(status);
    }
    again := bridge.Step(parse, false);
    rows := table.rows;
    waiting := bridge.lastMsg;
  }

  /** The same delivery once the flag is cleared together with the read, as
      `Bridge.Consume` does: the second payload arrives after the claim, stays
      fresh, and the next pass stores its row too. */
  method LateDeliveryKept(root: string, parse: Parser, first: string, second: string)
    returns (rows: seq<seq<string>>, again: bool)
    requires |first| > 0 && Deliverable(root, parse, first)
    requires |second| > 0 && Deliverable(root, parse, second)
    ensures rows == (if RowOf(root, parse, first).Some? then [RowOf(root, parse, first).value] else [])
                  + (if RowOf(root, parse, second).Some? then [RowOf(root, parse, second).value] else [])
    ensures again <==> RowOf(root, parse, second).Some?
  {
    var table := new StatusTable();
    var bridge := new Bridge(root, table);
    var _ := bridge.Step(parse, false);
    bridge.OnMessage(first);
    var _ := bridge.Step(parse, false);
    bridge.OnMessage(second);
    again := bridge.Step(parse, false);
    rows := table.rows;
  }
}
