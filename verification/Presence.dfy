/** Presence of token-authenticated streams: session rows written when a stream opens and
    closes, and the offline frame that a close announces only after a grace period and a
    re-read, with any number of streams in flight. */
module Presence {
  import opened Collections

  // -------------------------------------------------------------------- session rows

  /** The key beside the entity: a credential's prefix for the streams of this service, an
      installed client's token for the rows other services write. */
  datatype Device = Credential(prefix: string) | Install(token: string)

  datatype Row = Row(
    entityID: string,
    device: Device,
    status: bool,
    lastSeen: int,
    userAgent: string,
    sessionID: string,
    deviceType: string)

  function UserAgent(name: string): string {
    if name == "" then "developer_service client" else "developer_service client (" + name + ")"
  }

  predicate Matches(row: Row, entityID: string, device: Device) {
    row.entityID == entityID && row.device == device
  }

  /** The first row the filter selects. */
  function Find(rows: seq<Row>, entityID: string, device: Device): (i: Option<nat>)
    ensures i.Some? ==> i.value < |rows| && Matches(rows[i.value], entityID, device)
  {
    if rows == [] then None
    else if Matches(rows[0], entityID, device) then Some(0)
    else
      match Find(rows[1..], entityID, device)
      case None => None
      case Some(k) => Some(k + 1)
  }

  /** No earlier row matches, and none at all when there is none to find. */
  lemma {:induction false} FindIsFirst(rows: seq<Row>, entityID: string, device: Device, k: nat)
    requires k < |rows| && Matches(rows[k], entityID, device)
    ensures Find(rows, entityID, device).Some? && Find(rows, entityID, device).value <= k
  {
    if k > 0 && !Matches(rows[0], entityID, device) {
      FindIsFirst(rows[1..], entityID, device, k - 1);
    }
  }

  /** The upsert of one connection: liveness refreshed, identity written on insert only. */
  function MarkOnline(rows: seq<Row>, entityID: string, prefix: string, name: string, now: int): seq<Row> {
    match Find(rows, entityID, Credential(prefix))
    case Some(i) => rows[i := rows[i].(status := true, lastSeen := now, userAgent := UserAgent(name))]
    case None =>
      rows + [Row(entityID, Credential(prefix), true, now, UserAgent(name), "SESSION_BOT_" + prefix, "bot")]
  }

  function MarkOffline(rows: seq<Row>, entityID: string, prefix: string, now: int): seq<Row> {
    match Find(rows, entityID, Credential(prefix))
    case Some(i) => rows[i := rows[i].(status := false, lastSeen := now)]
    case None => rows
  }

  /** Another service's upsert of one of its own rows. */
  function MarkForeign(rows: seq<Row>, entityID: string, token: string, online: bool, now: int): seq<Row> {
    match Find(rows, entityID, Install(token))
    case Some(i) => rows[i := rows[i].(status := online, lastSeen := now)]
    case None => rows + [Row(entityID, Install(token), online, now, "", "SESSION_" + token, "desktop")]
  }

  predicate Live(rows: seq<Row>, entityID: string) {
    exists i :: 0 <= i < |rows| && rows[i].entityID == entityID && rows[i].status
  }

  predicate Online(rows: seq<Row>, entityID: string, prefix: string) {
    var i := Find(rows, entityID, Credential(prefix));
    i.Some? && rows[i.value].status
  }

  /** A connect leaves the credential's row, old or new, online as of now under the client's
      name, writes identity only when it is new, and touches no other row. */
  lemma MarkOnlineMeans(rows: seq<Row>, entityID: string, prefix: string, name: string, now: int)
    ensures var after := MarkOnline(rows, entityID, prefix, name, now);
            exists k ::
              && 0 <= k < |after|
              && after[k].entityID == entityID && after[k].device == Credential(prefix)
              && after[k].status && after[k].lastSeen == now
              && (name == "" ==> after[k].userAgent == "developer_service client")
              && (name != "" ==> after[k].userAgent == "developer_service client (" + name + ")")
              && (k == |rows| ==>
                    && after[k].sessionID == "SESSION_BOT_" + prefix && after[k].deviceType == "bot"
                    && forall j :: 0 <= j < |rows| ==>
                         !(rows[j].entityID == entityID && rows[j].device == Credential(prefix)))
              && (k < |rows| ==>
                    rows[k].entityID == entityID && rows[k].device == Credential(prefix)
                    && after[k].sessionID == rows[k].sessionID && after[k].deviceType == rows[k].deviceType)
              && |after| == (if k < |rows| then |rows| else |rows| + 1)
              && forall j :: 0 <= j < |rows| && j != k ==> after[j] == rows[j]
  {
    match Find(rows, entityID, Credential(prefix))
    case Some(i) => assert Matches(rows[i], entityID, Credential(prefix));
    case None =>
      var after := MarkOnline(rows, entityID, prefix, name, now);
      assert after[|rows|].entityID == entityID;
      forall j | 0 <= j < |rows| ensures !(rows[j].entityID == entityID && rows[j].device == Credential(prefix)) {
        if Matches(rows[j], entityID, Credential(prefix)) {
          FindIsFirst(rows, entityID, Credential(prefix), j);
        }
      }
  }

  /** A close leaves one row of the credential, if it has any, offline as of now and otherwise
      as it was, and touches no other row. */
  lemma MarkOfflineMeans(rows: seq<Row>, entityID: string, prefix: string, now: int)
    ensures var after := MarkOffline(rows, entityID, prefix, now);
            && |after| == |rows|
            && ((forall j :: 0 <= j < |rows| ==>
                   !(rows[j].entityID == entityID && rows[j].device == Credential(prefix))) ==> after == rows)
            && ((exists j ::
                   0 <= j < |rows| && rows[j].entityID == entityID && rows[j].device == Credential(prefix)) ==>
                  exists k ::
                    && 0 <= k < |rows| && rows[k].entityID == entityID && rows[k].device == Credential(prefix)
                    && after[k] == rows[k].(status := false, lastSeen := now)
                    && forall j :: 0 <= j < |rows| && j != k ==> after[j] == rows[j])
  {
    if j :| 0 <= j < |rows| && rows[j].entityID == entityID && rows[j].device == Credential(prefix) {
      FindIsFirst(rows, entityID, Credential(prefix), j);
      var k := Find(rows, entityID, Credential(prefix)).value;
      assert MarkOffline(rows, entityID, prefix, now)[k] == rows[k].(status := false, lastSeen := now);
    }
  }

  /** The sessions collection, as this service writes and reads it. */
  class Sessions {
    var rows: seq<Row>

    constructor ()
      ensures rows == []
    {
      rows := [];
    }

    method FindIndex(entityID: string, device: Device) returns (i: Option<nat>)
      ensures i == Find(rows, entityID, device)
    {
      var k := 0;
      while k < |rows|
        invariant 0 <= k <= |rows|
        invariant forall j :: 0 <= j < k ==> !Matches(rows[j], entityID, device)
      {
        if Matches(rows[k], entityID, device) {
          FindIsFirst(rows, entityID, device, k);
          return Some(k);
        }
        k := k + 1;
      }
      return None;
    }

    /** Records a stream's opening; true when the online frame is to go out. A failed write
        may have been applied all the same. */
    method Connected(entityID: string, prefix: string, name: string, now: int, fails: bool, applied: bool)
      returns (announces: bool)
      modifies this
      ensures entityID == "" || prefix == "" ==> rows == old(rows) && !announces
      ensures entityID != "" && prefix != "" ==>
                announces == !fails &&
                rows == if fails && !applied then old(rows) else MarkOnline(old(rows), entityID, prefix, name, now)
    {
      if entityID == "" || prefix == "" {
        return false;
      }
      if !fails || applied {
        var i := FindIndex(entityID, Credential(prefix));
        match i {
          case Some(k) => rows := rows[k := rows[k].(status := true, lastSeen := now, userAgent := UserAgent(name))];
          case None =>
            var row := Row(entityID, Credential(prefix), true, now, UserAgent(name), "SESSION_BOT_" + prefix, "bot");
            rows := rows + [row];
        }
      }
      return !fails;
    }

    /** Records a stream's end; true when the grace period is to be waited out. */
    method Disconnected(entityID: string, prefix: string, now: int, fails: bool, applied: bool)
      returns (waits: bool)
      modifies this
      ensures entityID == "" || prefix == "" ==> rows == old(rows) && !waits
      ensures entityID != "" && prefix != "" ==>
                waits == !fails &&
                rows == if fails && !applied then old(rows) else MarkOffline(old(rows), entityID, prefix, now)
    {
      if entityID == "" || prefix == "" {
        return false;
      }
      if !fails || applied {
        var i := FindIndex(entityID, Credential(prefix));
        if i.Some? {
          rows := rows[i.value := rows[i.value].(status := false, lastSeen := now)];
        }
      }
      return !fails;
    }

    /** Counts the entity's online rows. */
    method HasLiveSession(entityID: string) returns (live: bool)
      ensures live <==> exists i :: 0 <= i < |rows| && rows[i].entityID == entityID && rows[i].status
    {
      var count := 0;
      for i := 0 to |rows|
        invariant count >= 0
        invariant count > 0 <==> exists k :: 0 <= k < i && rows[k].entityID == entityID && rows[k].status
      {
        if rows[i].entityID == entityID && rows[i].status {
          count := count + 1;
        }
      }
      return count > 0;
    }
  }

  // --------------------------------------------------------------------- the protocol

  /** Six seconds, in nanoseconds. */
  const OFFLINE_GRACE := 6_000_000_000

  datatype Phase =
    | Opening
    | Open
    | Waiting(since: int)
    | Announcing(since: int)
    | Done

  datatype Stream = Stream(entityID: string, prefix: string, name: string, phase: Phase)

  /** `offline` lists the offline frames announced so far, by stream. */
  datatype State = State(clock: int, rows: seq<Row>, streams: seq<Stream>, offline: seq<nat>)

  datatype Step =
    | Tick(to: int)
    | Start(entityID: string, prefix: string, name: string)
    | Connect(i: nat)
    | ConnectFails(i: nat, applied: bool)
    | Disconnect(i: nat)
    | DisconnectFails(i: nat, applied: bool)
    | Reread(i: nat, ok: bool)
    | Announce(i: nat)
    | Foreign(entityID: string, token: string, online: bool)
    | Stop(i: nat)

  /** `Stop` ends a stream together with its replica, which writes and announces nothing more.
      Both recorder calls do nothing for a blank entity or prefix; such streams take no part. */
  predicate Enabled(s: State, step: Step) {
    match step
    case Tick(to) => s.clock <= to
    case Start(entityID, prefix, _) => entityID != "" && prefix != ""
    case Connect(i) => i < |s.streams| && s.streams[i].phase.Opening?
    case ConnectFails(i, _) => i < |s.streams| && s.streams[i].phase.Opening?
    case Disconnect(i) => i < |s.streams| && s.streams[i].phase.Open?
    case DisconnectFails(i, _) => i < |s.streams| && s.streams[i].phase.Open?
    case Reread(i, _) =>
      i < |s.streams| && s.streams[i].phase.Waiting? && s.streams[i].phase.since + OFFLINE_GRACE <= s.clock
    case Announce(i) => i < |s.streams| && s.streams[i].phase.Announcing?
    case Foreign(_, _, _) => true
    case Stop(i) => i < |s.streams| && !s.streams[i].phase.Done?
  }

  function Advance(s: State, i: nat, phase: Phase): State
    requires i < |s.streams|
  {
    s.(streams := s.streams[i := s.streams[i].(phase := phase)])
  }

  function Apply(s: State, step: Step): State
    requires Enabled(s, step)
  {
    match step
    case Tick(to) => s.(clock := to)
    case Start(entityID, prefix, name) => s.(streams := s.streams + [Stream(entityID, prefix, name, Opening)])
    case Connect(i) =>
      var x := s.streams[i];
      Advance(s, i, Open).(rows := MarkOnline(s.rows, x.entityID, x.prefix, x.name, s.clock))
    case ConnectFails(i, applied) =>
      var x := s.streams[i];
      Advance(s, i, Open).(
        rows := if applied then MarkOnline(s.rows, x.entityID, x.prefix, x.name, s.clock) else s.rows)
    case Disconnect(i) =>
      var x := s.streams[i];
      Advance(s, i, Waiting(s.clock)).(rows := MarkOffline(s.rows, x.entityID, x.prefix, s.clock))
    case DisconnectFails(i, applied) =>
      var x := s.streams[i];
      Advance(s, i, Done).(rows := if applied then MarkOffline(s.rows, x.entityID, x.prefix, s.clock) else s.rows)
    case Reread(i, ok) =>
      Advance(s, i, if ok && Live(s.rows, s.streams[i].entityID) then Done else Announcing(s.streams[i].phase.since))
    case Announce(i) => Advance(s, i, Done).(offline := s.offline + [i])
    case Foreign(entityID, token, online) => s.(rows := MarkForeign(s.rows, entityID, token, online, s.clock))
    case Stop(i) => Advance(s, i, Done)
  }

  /** The state after a run from the given rows; None when a step was not enabled. */
  function After(clock: int, rows: seq<Row>, steps: seq<Step>): Option<State> {
    if steps == [] then Some(State(clock, rows, [], []))
    else
      match After(clock, rows, steps[..|steps| - 1])
      case None => None
      case Some(s) =>
        if Enabled(s, steps[|steps| - 1]) then Some(Apply(s, steps[|steps| - 1])) else None
  }

  /** Every prefix of a run is a run. */
  lemma {:induction false} PrefixRuns(clock: int, rows: seq<Row>, steps: seq<Step>, n: nat)
    requires n <= |steps| && After(clock, rows, steps).Some?
    ensures After(clock, rows, steps[..n]).Some?
    decreases |steps|
  {
    hide Enabled, Apply;
    if n < |steps| {
      var front := steps[..|steps| - 1];
      PrefixRuns(clock, rows, front, n);
      assert front[..n] == steps[..n];
    } else {
      assert steps[..n] == steps;
    }
  }

  lemma StepOfRun(clock: int, rows: seq<Row>, steps: seq<Step>, n: nat)
    requires n < |steps| && After(clock, rows, steps).Some?
    ensures After(clock, rows, steps[..n]).Some? && After(clock, rows, steps[..n + 1]).Some?
    ensures Enabled(After(clock, rows, steps[..n]).value, steps[n])
    ensures After(clock, rows, steps[..n + 1]).value == Apply(After(clock, rows, steps[..n]).value, steps[n])
  {
    PrefixRuns(clock, rows, steps, n);
    PrefixRuns(clock, rows, steps, n + 1);
    hide Enabled, Apply;
    assert steps[..n + 1][..n] == steps[..n];
  }

  // ----------------------------------------------- an offline frame follows a quiet read

  /** Stream i closed at step w, at instant `since`. */
  ghost predicate ClosedAt(clock: int, rows: seq<Row>, steps: seq<Step>, i: nat, since: int, w: nat) {
    w < |steps| && steps[w] == Disconnect(i) &&
    After(clock, rows, steps[..w]).Some? && After(clock, rows, steps[..w]).value.clock == since
  }

  /** At step r the stream's re-read failed or found no online row of its entity. */
  ghost predicate QuietRead(clock: int, rows: seq<Row>, steps: seq<Step>, i: nat, since: int, r: nat) {
    && r < |steps| && steps[r].Reread? && steps[r].i == i
    && After(clock, rows, steps[..r]).Some?
    && var s := After(clock, rows, steps[..r]).value;
    && i < |s.streams|
    && since + OFFLINE_GRACE <= s.clock
    && (!steps[r].ok || !Live(s.rows, s.streams[i].entityID))
  }

  /** Some close at `since`, and, when `read` is set, some quiet read after it. */
  ghost predicate Explained(clock: int, rows: seq<Row>, steps: seq<Step>, i: nat, since: int, read: bool) {
    exists w: nat ::
      && ClosedAt(clock, rows, steps, i, since, w)
      && (!read || exists r: nat :: w < r && QuietRead(clock, rows, steps, i, since, r))
  }

  ghost predicate History(clock: int, rows: seq<Row>, steps: seq<Step>, s: State, i: nat) {
    i < |s.streams| ==>
      match s.streams[i].phase
      case Waiting(since) => Explained(clock, rows, steps, i, since, false)
      case Announcing(since) => Explained(clock, rows, steps, i, since, true)
      case _ => true
  }

  lemma LongerClosedAt(clock: int, rows: seq<Row>, steps: seq<Step>, last: Step, i: nat, since: int, w: nat)
    requires ClosedAt(clock, rows, steps, i, since, w)
    ensures ClosedAt(clock, rows, steps + [last], i, since, w)
  {
    hide After;
    assert (steps + [last])[..w] == steps[..w];
  }

  lemma LongerQuietRead(clock: int, rows: seq<Row>, steps: seq<Step>, last: Step, i: nat, since: int, r: nat)
    requires QuietRead(clock, rows, steps, i, since, r)
    ensures QuietRead(clock, rows, steps + [last], i, since, r)
  {
    hide After;
    assert (steps + [last])[..r] == steps[..r];
  }

  lemma LongerExplained(clock: int, rows: seq<Row>, steps: seq<Step>, last: Step, i: nat, since: int, read: bool)
    requires Explained(clock, rows, steps, i, since, read)
    ensures Explained(clock, rows, steps + [last], i, since, read)
  {
    hide ClosedAt, QuietRead;
    var w: nat :| ClosedAt(clock, rows, steps, i, since, w)
                  && (!read || exists r: nat :: w < r && QuietRead(clock, rows, steps, i, since, r));
    LongerClosedAt(clock, rows, steps, last, i, since, w);
    if read {
      var r: nat :| w < r && QuietRead(clock, rows, steps, i, since, r);
      LongerQuietRead(clock, rows, steps, last, i, since, r);
    }
  }

  /** A quiet read explains the announcement that a wait, already explained, goes on to. */
  lemma ReadExplains(clock: int, rows: seq<Row>, steps: seq<Step>, last: Step, i: nat, since: int)
    requires Explained(clock, rows, steps, i, since, false)
    requires QuietRead(clock, rows, steps + [last], i, since, |steps|)
    ensures Explained(clock, rows, steps + [last], i, since, true)
  {
    hide QuietRead;
    var w: nat :| ClosedAt(clock, rows, steps, i, since, w);
    assert w < |steps|;
    LongerClosedAt(clock, rows, steps, last, i, since, w);
  }

  /** The step that changes stream i's own phase writes its next piece of history. */
  lemma OwnStepHistory(clock: int, rows: seq<Row>, steps: seq<Step>, last: Step, s: State, i: nat)
    requires After(clock, rows, steps) == Some(s) && Enabled(s, last) && i < |s.streams|
    requires History(clock, rows, steps, s, i)
    requires Apply(s, last).streams[i].phase != s.streams[i].phase
    ensures History(clock, rows, steps + [last], Apply(s, last), i)
  {
    hide After, Live, MarkOnline, MarkOffline, MarkForeign, Explained;
    assert (steps + [last])[..|steps|] == steps;
    match last {
      case Disconnect(_) =>
        CloseExplains(clock, rows, steps, last, i, s.clock);
      case Reread(_, ok) =>
        if !ok || !Live(s.rows, s.streams[i].entityID) {
          ReadExplains(clock, rows, steps, last, i, s.streams[i].phase.since);
        }
      case _ =>
    }
  }

  lemma CloseExplains(clock: int, rows: seq<Row>, steps: seq<Step>, last: Step, i: nat, since: int)
    requires After(clock, rows, steps).Some? && After(clock, rows, steps).value.clock == since
    requires last == Disconnect(i)
    ensures Explained(clock, rows, steps + [last], i, since, false)
  {
    hide After;
    assert (steps + [last])[..|steps|] == steps;
    assert ClosedAt(clock, rows, steps + [last], i, since, |steps|);
  }

  lemma {:induction false} RunsHaveHistory(clock: int, rows: seq<Row>, steps: seq<Step>, i: nat)
    requires After(clock, rows, steps).Some?
    ensures History(clock, rows, steps, After(clock, rows, steps).value, i)
    decreases |steps|
  {
    if steps != [] {
      hide History;
      var front, last := steps[..|steps| - 1], steps[|steps| - 1];
      var s := After(clock, rows, front).value;
      assert steps == front + [last];
      RunsHaveHistory(clock, rows, front, i);
      HistoryStep(clock, rows, front, last, s, i);
    }
  }

  lemma HistoryStep(clock: int, rows: seq<Row>, steps: seq<Step>, last: Step, s: State, i: nat)
    requires After(clock, rows, steps) == Some(s) && Enabled(s, last)
    requires History(clock, rows, steps, s, i)
    ensures History(clock, rows, steps + [last], Apply(s, last), i)
  {
    hide After, Explained, Live, MarkOnline, MarkOffline, MarkForeign;
    if i < |s.streams| {
      if Apply(s, last).streams[i].phase == s.streams[i].phase {
        if s.streams[i].phase.Waiting? || s.streams[i].phase.Announcing? {
          LongerExplained(clock, rows, steps, last, i, s.streams[i].phase.since, s.streams[i].phase.Announcing?);
        }
      } else {
        OwnStepHistory(clock, rows, steps, last, s, i);
      }
    }
  }

  /** An offline frame is announced only after the stream's close was written and a re-read,
      at least the grace period later, failed or found no online row of the entity. */
  lemma OfflineFollowsQuietRead(clock: int, rows: seq<Row>, steps: seq<Step>, k: nat, i: nat)
    requires After(clock, rows, steps).Some? && k < |steps| && steps[k] == Announce(i)
    ensures exists since, w: nat, r: nat ::
              w < r < k && ClosedAt(clock, rows, steps, i, since, w) && QuietRead(clock, rows, steps, i, since, r)
  {
    StepOfRun(clock, rows, steps, k);
    var s := After(clock, rows, steps[..k]).value;
    RunsHaveHistory(clock, rows, steps[..k], i);
    var since := s.streams[i].phase.since;
    hide After, Enabled, Apply;
    var w: nat :| ClosedAt(clock, rows, steps[..k], i, since, w)
                  && exists r: nat :: w < r && QuietRead(clock, rows, steps[..k], i, since, r);
    var r: nat :| w < r && QuietRead(clock, rows, steps[..k], i, since, r);
    WithinClosedAt(clock, rows, steps, k, i, since, w);
    WithinQuietRead(clock, rows, steps, k, i, since, r);
  }

  lemma WithinClosedAt(clock: int, rows: seq<Row>, steps: seq<Step>, k: nat, i: nat, since: int, w: nat)
    requires k <= |steps| && ClosedAt(clock, rows, steps[..k], i, since, w)
    ensures w < k && ClosedAt(clock, rows, steps, i, since, w)
  {
    hide After;
    assert steps[..k][..w] == steps[..w];
  }

  lemma WithinQuietRead(clock: int, rows: seq<Row>, steps: seq<Step>, k: nat, i: nat, since: int, r: nat)
    requires k <= |steps| && QuietRead(clock, rows, steps[..k], i, since, r)
    ensures r < k && QuietRead(clock, rows, steps, i, since, r)
  {
    hide After;
    assert steps[..k][..r] == steps[..r];
  }

  /** The grace period is six seconds: the quiet read comes that long after the close. */
  lemma QuietReadIsLate(clock: int, rows: seq<Row>, steps: seq<Step>, i: nat, since: int, r: nat)
    requires QuietRead(clock, rows, steps, i, since, r)
    ensures After(clock, rows, steps[..r]).value.clock >= since + 6 * 1_000_000_000
  {
    hide After, Live;
  }

  /** A re-read that succeeds and sees no row of the stream's own entity online goes on to
      announce, whatever the rows of other entities say. */
  lemma QuietReadAnnounces(clock: int, rows: seq<Row>, steps: seq<Step>, r: nat, i: nat)
    requires After(clock, rows, steps).Some? && r < |steps| && steps[r] == Reread(i, true)
    requires After(clock, rows, steps[..r]).Some? && i < |After(clock, rows, steps[..r]).value.streams|
    requires var s := After(clock, rows, steps[..r]).value;
             forall k :: 0 <= k < |s.rows| && s.rows[k].entityID == s.streams[i].entityID ==> !s.rows[k].status
    ensures After(clock, rows, steps[..r + 1]).Some?
    ensures i < |After(clock, rows, steps[..r + 1]).value.streams|
    ensures After(clock, rows, steps[..r + 1]).value.streams[i].phase.Announcing?
  {
    hide After, MarkOnline, MarkOffline, MarkForeign;
    StepOfRun(clock, rows, steps, r);
  }

  // ---------------------------------------------------- a reconnect suppresses the frame

  function Rank(phase: Phase): nat {
    match phase
    case Opening => 0
    case Open => 1
    case Waiting(_) => 2
    case Announcing(_) => 3
    case Done => 4
  }

  /** Once stream i is there, each step leaves it who it is and moves its phase, if at all,
      forward. */
  lemma StreamStep(s: State, step: Step, i: nat)
    requires Enabled(s, step) && i < |s.streams|
    ensures i < |Apply(s, step).streams|
    ensures Rank(s.streams[i].phase) <= Rank(Apply(s, step).streams[i].phase)
    ensures Apply(s, step).streams[i].entityID == s.streams[i].entityID
    ensures Apply(s, step).streams[i].prefix == s.streams[i].prefix
  {
    hide MarkOnline, MarkOffline, MarkForeign, Live;
  }

  ghost predicate Onward(a: State, b: State, i: nat)
    requires i < |a.streams|
  {
    && i < |b.streams|
    && Rank(a.streams[i].phase) <= Rank(b.streams[i].phase)
    && a.streams[i].entityID == b.streams[i].entityID
    && a.streams[i].prefix == b.streams[i].prefix
  }

  lemma {:induction false} StreamsMoveForward(clock: int, rows: seq<Row>, steps: seq<Step>, m: nat, n: nat, i: nat)
    requires After(clock, rows, steps).Some? && m <= n <= |steps|
    requires After(clock, rows, steps[..m]).Some? && i < |After(clock, rows, steps[..m]).value.streams|
    ensures After(clock, rows, steps[..n]).Some?
    ensures Onward(After(clock, rows, steps[..m]).value, After(clock, rows, steps[..n]).value, i)
    decreases n
  {
    hide After, Enabled, Apply;
    if m < n {
      StreamsMoveForward(clock, rows, steps, m, n - 1, i);
      StepOfRun(clock, rows, steps, n - 1);
      StreamStep(After(clock, rows, steps[..n - 1]).value, steps[n - 1], i);
    }
  }

  /** A re-read that succeeds and finds the entity live ends the close without a frame,
      for good. */
  lemma LiveReadSuppresses(clock: int, rows: seq<Row>, steps: seq<Step>, r: nat, i: nat, k: nat)
    requires After(clock, rows, steps).Some? && r < |steps| && steps[r] == Reread(i, true)
    requires After(clock, rows, steps[..r]).Some? && i < |After(clock, rows, steps[..r]).value.streams|
    requires Live(After(clock, rows, steps[..r]).value.rows, After(clock, rows, steps[..r]).value.streams[i].entityID)
    requires k < |steps|
    ensures steps[k] != Announce(i)
  {
    hide After, Live, MarkOnline, MarkOffline, MarkForeign;
    StepOfRun(clock, rows, steps, r);
    StepOfRun(clock, rows, steps, k);
    if steps[k] == Announce(i) {
      if k < r {
        StreamsMoveForward(clock, rows, steps, k + 1, r, i);
      } else {
        StreamsMoveForward(clock, rows, steps, r + 1, k, i);
      }
    }
  }

  // ----------------------------------------------- what one write does to one credential

  predicate SameIdentity(a: Row, b: Row) {
    a.entityID == b.entityID && a.device == b.device && a.sessionID == b.sessionID && a.deviceType == b.deviceType
  }

  /** Rows are never removed or renamed, and a new one comes last. */
  ghost predicate Keeps(a: seq<Row>, b: seq<Row>) {
    |a| <= |b| && forall i :: 0 <= i < |a| ==> SameIdentity(a[i], b[i])
  }

  /** One upsert: besides keeping rows, it adds at most one, of a key not yet there. */
  ghost predicate Upserts(a: seq<Row>, b: seq<Row>) {
    && Keeps(a, b)
    && |b| <= |a| + 1
    && (|b| > |a| ==> Find(a, b[|a|].entityID, b[|a|].device).None?)
  }

  lemma WritesUpsert(rows: seq<Row>, entityID: string, prefix: string, name: string, online: bool, now: int)
    ensures Upserts(rows, MarkOnline(rows, entityID, prefix, name, now))
    ensures Upserts(rows, MarkOffline(rows, entityID, prefix, now))
    ensures Upserts(rows, MarkForeign(rows, entityID, prefix, online, now))
  {
  }

  lemma MatchKept(a: seq<Row>, b: seq<Row>, entityID: string, device: Device, k: nat)
    requires Keeps(a, b) && k < |a|
    ensures Matches(a[k], entityID, device) <==> Matches(b[k], entityID, device)
  {
    assert SameIdentity(a[k], b[k]);
  }

  lemma FoundStays(a: seq<Row>, b: seq<Row>, entityID: string, device: Device)
    requires Keeps(a, b) && Find(a, entityID, device).Some?
    ensures Find(b, entityID, device) == Find(a, entityID, device)
  {
    assert |a| <= |b|;
    hide Find, Matches, Keeps;
    var i := Find(a, entityID, device).value;
    assert Matches(b[i], entityID, device) by {
      MatchKept(a, b, entityID, device, i);
    }
    FindIsFirst(b, entityID, device, i);
    var j := Find(b, entityID, device).value;
    assert Matches(a[j], entityID, device) by {
      MatchKept(a, b, entityID, device, j);
    }
    FindIsFirst(a, entityID, device, j);
    assert i == j;
  }

  lemma NewRowIsFound(a: seq<Row>, b: seq<Row>, entityID: string, device: Device)
    requires Keeps(a, b) && |b| == |a| + 1 && Find(a, entityID, device).None?
    requires Matches(b[|a|], entityID, device)
    ensures Find(b, entityID, device) == Some(|a|)
  {
    hide Find, Matches;
    FindIsFirst(b, entityID, device, |a|);
    var j := Find(b, entityID, device).value;
    if j < |a| {
      MatchKept(a, b, entityID, device, j);
      FindIsFirst(a, entityID, device, j);
    }
  }

  lemma NothingIsFound(a: seq<Row>, b: seq<Row>, entityID: string, device: Device)
    requires Keeps(a, b) && |b| <= |a| + 1 && Find(a, entityID, device).None?
    requires |b| > |a| ==> !Matches(b[|a|], entityID, device)
    ensures Find(b, entityID, device).None?
  {
    hide Find, Matches;
    if Find(b, entityID, device).Some? {
      var j := Find(b, entityID, device).value;
      MatchKept(a, b, entityID, device, j);
      FindIsFirst(a, entityID, device, j);
    }
  }

  /** A key keeps the row it was first given. */
  lemma FindStays(a: seq<Row>, b: seq<Row>, entityID: string, device: Device)
    requires Upserts(a, b)
    ensures Find(a, entityID, device).Some? ==> Find(b, entityID, device) == Find(a, entityID, device)
    ensures Find(a, entityID, device).None? ==>
              Find(b, entityID, device) ==
              if |b| > |a| && Matches(b[|a|], entityID, device) then Some(|a|) else None
  {
    assert |a| <= |b| <= |a| + 1;
    hide Find, Matches, Keeps;
    if Find(a, entityID, device).Some? {
      FoundStays(a, b, entityID, device);
    } else if |b| > |a| && Matches(b[|a|], entityID, device) {
      NewRowIsFound(a, b, entityID, device);
    } else {
      NothingIsFound(a, b, entityID, device);
    }
  }

  /** What the three writes do to a credential's status: a connect lights it, a close puts it
      out, and neither touches any other credential. */
  lemma WritesStatus(rows: seq<Row>, entityID: string, prefix: string, name: string, now: int, e: string, p: string)
    ensures Online(MarkOnline(rows, entityID, prefix, name, now), e, p)
            == ((entityID == e && prefix == p) || Online(rows, e, p))
    ensures Online(MarkOffline(rows, entityID, prefix, now), e, p)
            == (!(entityID == e && prefix == p) && Online(rows, e, p))
  {
    WritesUpsert(rows, entityID, prefix, name, true, now);
    FindStays(rows, MarkOnline(rows, entityID, prefix, name, now), e, Credential(p));
    FindStays(rows, MarkOffline(rows, entityID, prefix, now), e, Credential(p));
  }

  lemma ForeignStatus(rows: seq<Row>, entityID: string, token: string, online: bool, now: int, e: string, p: string)
    ensures Online(MarkForeign(rows, entityID, token, online, now), e, p) == Online(rows, e, p)
  {
    WritesUpsert(rows, entityID, token, "", online, now);
    FindStays(rows, MarkForeign(rows, entityID, token, online, now), e, Credential(p));
  }

  predicate Of(s: State, i: nat, entityID: string, prefix: string) {
    i < |s.streams| && s.streams[i].entityID == entityID && s.streams[i].prefix == prefix
  }

  /** The step opens a stream of this credential and its write takes effect. */
  predicate Lights(s: State, step: Step, entityID: string, prefix: string) {
    (step.Connect? || (step.ConnectFails? && step.applied)) && Of(s, step.i, entityID, prefix)
  }

  /** The step closes a stream of this credential and its write takes effect. */
  predicate Undoes(s: State, step: Step, entityID: string, prefix: string) {
    (step.Disconnect? || (step.DisconnectFails? && step.applied)) && Of(s, step.i, entityID, prefix)
  }

  lemma StepStatus(s: State, step: Step, entityID: string, prefix: string)
    requires Enabled(s, step)
    ensures Online(Apply(s, step).rows, entityID, prefix)
            == (Lights(s, step, entityID, prefix)
                || (Online(s.rows, entityID, prefix) && !Undoes(s, step, entityID, prefix)))
  {
    hide MarkOnline, MarkOffline, MarkForeign, Live, Online;
    match step {
      case Connect(i) =>
        WritesStatus(s.rows, s.streams[i].entityID, s.streams[i].prefix, s.streams[i].name, s.clock, entityID, prefix);
      case ConnectFails(i, _) =>
        WritesStatus(s.rows, s.streams[i].entityID, s.streams[i].prefix, s.streams[i].name, s.clock, entityID, prefix);
      case Disconnect(i) =>
        WritesStatus(s.rows, s.streams[i].entityID, s.streams[i].prefix, s.streams[i].name, s.clock, entityID, prefix);
      case DisconnectFails(i, _) =>
        WritesStatus(s.rows, s.streams[i].entityID, s.streams[i].prefix, s.streams[i].name, s.clock, entityID, prefix);
      case Foreign(e, token, online) =>
        ForeignStatus(s.rows, e, token, online, s.clock, entityID, prefix);
      case _ =>
    }
  }

  lemma OnlineImpliesLive(rows: seq<Row>, entityID: string, prefix: string)
    requires Online(rows, entityID, prefix)
    ensures Live(rows, entityID)
  {
  }

  ghost predicate LitAt(clock: int, rows: seq<Row>, steps: seq<Step>, c: nat, entityID: string, prefix: string) {
    c < |steps| && After(clock, rows, steps[..c]).Some? &&
    Lights(After(clock, rows, steps[..c]).value, steps[c], entityID, prefix)
  }

  ghost predicate UndoneAt(clock: int, rows: seq<Row>, steps: seq<Step>, c: nat, entityID: string, prefix: string) {
    c < |steps| && After(clock, rows, steps[..c]).Some? &&
    Undoes(After(clock, rows, steps[..c]).value, steps[c], entityID, prefix)
  }

  lemma {:induction false} StaysOnline(
    clock: int, rows: seq<Row>, steps: seq<Step>, c: nat, r: nat, entityID: string, prefix: string)
    requires After(clock, rows, steps).Some? && c < r <= |steps|
    requires LitAt(clock, rows, steps, c, entityID, prefix)
    requires forall u: nat :: c < u < r ==> !UndoneAt(clock, rows, steps, u, entityID, prefix)
    ensures After(clock, rows, steps[..r]).Some?
    ensures Online(After(clock, rows, steps[..r]).value.rows, entityID, prefix)
    decreases r
  {
    hide After, Enabled, Apply, Lights, Undoes, Online;
    StepOfRun(clock, rows, steps, r - 1);
    StepStatus(After(clock, rows, steps[..r - 1]).value, steps[r - 1], entityID, prefix);
    if c < r - 1 {
      StaysOnline(clock, rows, steps, c, r - 1, entityID, prefix);
      assert !UndoneAt(clock, rows, steps, r - 1, entityID, prefix);
    }
  }

  /** A connect write of any credential of the entity, not undone by a close of that
      credential before the re-read, suppresses the frame of the stream that closed. */
  lemma ReconnectSuppresses(
    clock: int, rows: seq<Row>, steps: seq<Step>, c: nat, r: nat, i: nat, entityID: string, prefix: string, k: nat)
    requires After(clock, rows, steps).Some? && c < r < |steps| && steps[r] == Reread(i, true)
    requires LitAt(clock, rows, steps, c, entityID, prefix)
    requires forall u: nat :: c < u < r ==> !UndoneAt(clock, rows, steps, u, entityID, prefix)
    requires After(clock, rows, steps[..r]).Some? && i < |After(clock, rows, steps[..r]).value.streams|
    requires After(clock, rows, steps[..r]).value.streams[i].entityID == entityID
    requires k < |steps|
    ensures steps[k] != Announce(i)
  {
    hide After, Enabled, Apply, LitAt, UndoneAt, Online, Live;
    StaysOnline(clock, rows, steps, c, r, entityID, prefix);
    OnlineImpliesLive(After(clock, rows, steps[..r]).value.rows, entityID, prefix);
    LiveReadSuppresses(clock, rows, steps, r, i, k);
  }

  // -------------------------------------------------------------- one row a credential

  ghost predicate OneRowPerKey(rows: seq<Row>) {
    forall i, j :: 0 <= i < j < |rows| ==> !Matches(rows[i], rows[j].entityID, rows[j].device)
  }

  lemma UpsertKeepsOneRow(a: seq<Row>, b: seq<Row>)
    requires OneRowPerKey(a) && Upserts(a, b)
    ensures OneRowPerKey(b)
  {
    hide Find;
    forall i, j | 0 <= i < j < |b| ensures !Matches(b[i], b[j].entityID, b[j].device) {
      assert SameIdentity(a[i], b[i]);
      if j < |a| {
        assert SameIdentity(a[j], b[j]);
        assert !Matches(a[i], a[j].entityID, a[j].device);
      } else if Matches(a[i], b[j].entityID, b[j].device) {
        FindIsFirst(a, b[j].entityID, b[j].device, i);
      }
    }
  }

  lemma StepUpserts(s: State, step: Step)
    requires Enabled(s, step)
    ensures Upserts(s.rows, Apply(s, step).rows)
  {
    hide MarkOnline, MarkOffline, MarkForeign, Live, Find;
    match step {
      case Connect(i) =>
        WritesUpsert(s.rows, s.streams[i].entityID, s.streams[i].prefix, s.streams[i].name, true, s.clock);
      case ConnectFails(i, _) =>
        WritesUpsert(s.rows, s.streams[i].entityID, s.streams[i].prefix, s.streams[i].name, true, s.clock);
      case Disconnect(i) =>
        WritesUpsert(s.rows, s.streams[i].entityID, s.streams[i].prefix, s.streams[i].name, true, s.clock);
      case DisconnectFails(i, _) =>
        WritesUpsert(s.rows, s.streams[i].entityID, s.streams[i].prefix, s.streams[i].name, true, s.clock);
      case Foreign(e, token, online) =>
        WritesUpsert(s.rows, e, token, "", online, s.clock);
      case _ =>
    }
  }

  /** However many streams reconnect, however their writes fail, a credential has one row of
      an entity, and every row keeps its place and its identity for good. */
  lemma {:induction false} RowsEndure(clock: int, rows: seq<Row>, steps: seq<Step>, m: nat)
    requires OneRowPerKey(rows) && After(clock, rows, steps).Some? && m <= |steps|
    ensures OneRowPerKey(After(clock, rows, steps).value.rows)
    ensures After(clock, rows, steps[..m]).Some?
    ensures Keeps(After(clock, rows, steps[..m]).value.rows, After(clock, rows, steps).value.rows)
    decreases |steps|
  {
    hide Enabled, Apply, OneRowPerKey;
    if m == |steps| {
      assert steps[..m] == steps;
    }
    if steps != [] {
      var front, last := steps[..|steps| - 1], steps[|steps| - 1];
      var s := After(clock, rows, front).value;
      StepUpserts(s, last);
      if m < |steps| {
        RowsEndure(clock, rows, front, m);
        assert front[..m] == steps[..m];
      } else {
        RowsEndure(clock, rows, front, 0);
      }
      UpsertKeepsOneRow(s.rows, Apply(s, last).rows);
    }
  }

  // ------------------------------------------------------ the row tells whether it is open

  predicate OpenAt(s: State, j: nat, entityID: string, prefix: string) {
    Of(s, j, entityID, prefix) && s.streams[j].phase.Open?
  }

  ghost predicate SomeOpen(s: State, entityID: string, prefix: string) {
    exists j: nat :: OpenAt(s, j, entityID, prefix)
  }

  ghost predicate Truthful(s: State, entityID: string, prefix: string) {
    Online(s.rows, entityID, prefix) <==> SomeOpen(s, entityID, prefix)
  }

  /** The step closes a stream of the credential while another one of it is open. */
  ghost predicate Overlaps(s: State, step: Step, entityID: string, prefix: string) {
    step.Disconnect? && Of(s, step.i, entityID, prefix) &&
    exists j: nat :: j != step.i && OpenAt(s, j, entityID, prefix)
  }

  /** A write for the credential fails, or the replica of a stream of it stops. */
  predicate Fails(s: State, step: Step, entityID: string, prefix: string) {
    (step.ConnectFails? || step.DisconnectFails? || step.Stop?) && Of(s, step.i, entityID, prefix)
  }

  lemma OpenStep(s: State, step: Step, entityID: string, prefix: string, j: nat)
    requires Enabled(s, step) && !Fails(s, step, entityID, prefix)
    ensures OpenAt(Apply(s, step), j, entityID, prefix)
            == if Lights(s, step, entityID, prefix) && j == step.i then true
               else if Undoes(s, step, entityID, prefix) && j == step.i then false
               else OpenAt(s, j, entityID, prefix)
  {
    hide MarkOnline, MarkOffline, MarkForeign, Live;
  }

  /** From a truthful row, one step leaves it truthful exactly when it is not an overlapped
      close. */
  lemma StepTruthful(s: State, step: Step, entityID: string, prefix: string)
    requires Enabled(s, step) && !Fails(s, step, entityID, prefix)
    requires Truthful(s, entityID, prefix)
    ensures Truthful(Apply(s, step), entityID, prefix) <==> !Overlaps(s, step, entityID, prefix)
  {
    hide Apply, Online, OpenAt;
    var t := Apply(s, step);
    StepStatus(s, step, entityID, prefix);
    forall j: nat
      ensures OpenAt(t, j, entityID, prefix)
              == if Lights(s, step, entityID, prefix) && j == step.i then true
                 else if Undoes(s, step, entityID, prefix) && j == step.i then false
                 else OpenAt(s, j, entityID, prefix)
    {
      OpenStep(s, step, entityID, prefix, j);
    }
    if Lights(s, step, entityID, prefix) {
      assert OpenAt(t, step.i, entityID, prefix);
    }
    if SomeOpen(s, entityID, prefix) {
      var j: nat :| OpenAt(s, j, entityID, prefix);
      assert j == j && (OpenAt(t, j, entityID, prefix) || (Undoes(s, step, entityID, prefix) && j == step.i));
    }
  }

  ghost predicate NothingFails(clock: int, rows: seq<Row>, steps: seq<Step>, entityID: string, prefix: string) {
    forall n: nat :: n < |steps| && After(clock, rows, steps[..n]).Some? ==>
      !Fails(After(clock, rows, steps[..n]).value, steps[n], entityID, prefix)
  }

  ghost predicate TruthfulAt(clock: int, rows: seq<Row>, steps: seq<Step>, n: nat, entityID: string, prefix: string) {
    n <= |steps| && After(clock, rows, steps[..n]).Some? &&
    Truthful(After(clock, rows, steps[..n]).value, entityID, prefix)
  }

  ghost predicate OverlappedAt(clock: int, rows: seq<Row>, steps: seq<Step>, n: nat, entityID: string, prefix: string) {
    n < |steps| && After(clock, rows, steps[..n]).Some? &&
    Overlaps(After(clock, rows, steps[..n]).value, steps[n], entityID, prefix)
  }

  lemma TruthfulNext(clock: int, rows: seq<Row>, steps: seq<Step>, n: nat, entityID: string, prefix: string)
    requires After(clock, rows, steps).Some? && NothingFails(clock, rows, steps, entityID, prefix)
    requires n < |steps| && TruthfulAt(clock, rows, steps, n, entityID, prefix)
    ensures TruthfulAt(clock, rows, steps, n + 1, entityID, prefix)
            <==> !OverlappedAt(clock, rows, steps, n, entityID, prefix)
  {
    hide After, Enabled, Apply, Truthful, Overlaps, Fails;
    StepOfRun(clock, rows, steps, n);
    StepTruthful(After(clock, rows, steps[..n]).value, steps[n], entityID, prefix);
  }

  lemma {:induction false} TruthfulUpTo(
    clock: int, rows: seq<Row>, steps: seq<Step>, n: nat, entityID: string, prefix: string)
    requires After(clock, rows, steps).Some? && NothingFails(clock, rows, steps, entityID, prefix)
    requires !Online(rows, entityID, prefix) && n <= |steps|
    requires forall w: nat :: w < n ==> !OverlappedAt(clock, rows, steps, w, entityID, prefix)
    ensures TruthfulAt(clock, rows, steps, n, entityID, prefix)
    decreases n
  {
    if n == 0 {
      hide Online;
      assert steps[..0] == [];
    } else {
      hide After, TruthfulAt, OverlappedAt, NothingFails, Online;
      TruthfulUpTo(clock, rows, steps, n - 1, entityID, prefix);
      TruthfulNext(clock, rows, steps, n - 1, entityID, prefix);
    }
  }

  /** When its writes succeed and no replica stops with a stream of it, a credential's row is
      online exactly while a stream of it is open, throughout the run, if and only if no stream
      of it closes while another is open. */
  lemma TruthfulIffNoOverlappedClose(
    clock: int, rows: seq<Row>, steps: seq<Step>, entityID: string, prefix: string)
    requires After(clock, rows, steps).Some? && NothingFails(clock, rows, steps, entityID, prefix)
    requires !Online(rows, entityID, prefix)
    ensures (forall n: nat :: n <= |steps| ==> TruthfulAt(clock, rows, steps, n, entityID, prefix))
            <==> (forall w: nat :: w < |steps| ==> !OverlappedAt(clock, rows, steps, w, entityID, prefix))
  {
    hide After, TruthfulAt, OverlappedAt, NothingFails, Online;
    if forall n: nat :: n <= |steps| ==> TruthfulAt(clock, rows, steps, n, entityID, prefix) {
      forall w: nat | w < |steps| ensures !OverlappedAt(clock, rows, steps, w, entityID, prefix) {
        assert TruthfulAt(clock, rows, steps, w, entityID, prefix);
        assert TruthfulAt(clock, rows, steps, w + 1, entityID, prefix);
        TruthfulNext(clock, rows, steps, w, entityID, prefix);
      }
    }
    if forall w: nat :: w < |steps| ==> !OverlappedAt(clock, rows, steps, w, entityID, prefix) {
      forall n: nat | n <= |steps| ensures TruthfulAt(clock, rows, steps, n, entityID, prefix) {
        TruthfulUpTo(clock, rows, steps, n, entityID, prefix);
      }
    }
  }

  // ----------------------------------------------- offline while a stream is still open

  /** At step u another stream of the credential closes while stream j of it is open. */
  ghost predicate HiddenAt(
    clock: int, rows: seq<Row>, steps: seq<Step>, u: nat, j: nat, entityID: string, prefix: string)
  {
    && UndoneAt(clock, rows, steps, u, entityID, prefix)
    && steps[u].i != j && OpenAt(After(clock, rows, steps[..u]).value, j, entityID, prefix)
  }

  /** A stream that is open after its connect, and at some later point, is open in between. */
  lemma OpenThroughout(
    clock: int, rows: seq<Row>, steps: seq<Step>, c: nat, u: nat, r: nat, j: nat, entityID: string, prefix: string)
    requires After(clock, rows, steps).Some? && c < u <= r <= |steps| && steps[c] == Connect(j)
    requires After(clock, rows, steps[..r]).Some? && OpenAt(After(clock, rows, steps[..r]).value, j, entityID, prefix)
    ensures After(clock, rows, steps[..u]).Some? && OpenAt(After(clock, rows, steps[..u]).value, j, entityID, prefix)
    ensures LitAt(clock, rows, steps, c, entityID, prefix)
  {
    hide After, MarkOnline;
    StepOfRun(clock, rows, steps, c);
    StreamsMoveForward(clock, rows, steps, c + 1, u, j);
    StreamsMoveForward(clock, rows, steps, u, r, j);
    StreamsMoveForward(clock, rows, steps, c, r, j);
  }

  /** When a re-read that succeeds finds no online row of the entity although a stream of it
      whose connect was written is open, another stream of the same credential was closed in
      between, while that one was open. This holds for every stream of the entity still open. */
  lemma OfflineWhileOpenFollowsOverlap(
    clock: int, rows: seq<Row>, steps: seq<Step>, c: nat, r: nat, j: nat, entityID: string, prefix: string)
    requires After(clock, rows, steps).Some? && c < r <= |steps| && steps[c] == Connect(j)
    requires After(clock, rows, steps[..r]).Some?
    requires OpenAt(After(clock, rows, steps[..r]).value, j, entityID, prefix)
    requires !Live(After(clock, rows, steps[..r]).value.rows, entityID)
    ensures exists u: nat :: c < u < r && HiddenAt(clock, rows, steps, u, j, entityID, prefix)
  {
    hide After, Live, Online, LitAt, UndoneAt, OpenAt;
    OpenThroughout(clock, rows, steps, c, r, r, j, entityID, prefix);
    if forall u: nat :: c < u < r ==> !UndoneAt(clock, rows, steps, u, entityID, prefix) {
      StaysOnline(clock, rows, steps, c, r, entityID, prefix);
      OnlineImpliesLive(After(clock, rows, steps[..r]).value.rows, entityID, prefix);
    } else {
      var u: nat :| c < u < r && UndoneAt(clock, rows, steps, u, entityID, prefix);
      OpenThroughout(clock, rows, steps, c, u, r, j, entityID, prefix);
      OpenThroughout(clock, rows, steps, c, u + 1, r, j, entityID, prefix);
      CloserIsAnother(clock, rows, steps, u, j, entityID, prefix);
      assert HiddenAt(clock, rows, steps, u, j, entityID, prefix);
    }
  }

  lemma CloserIsAnother(
    clock: int, rows: seq<Row>, steps: seq<Step>, u: nat, j: nat, entityID: string, prefix: string)
    requires After(clock, rows, steps).Some? && UndoneAt(clock, rows, steps, u, entityID, prefix)
    requires After(clock, rows, steps[..u + 1]).Some?
    requires OpenAt(After(clock, rows, steps[..u + 1]).value, j, entityID, prefix)
    ensures steps[u].i != j
  {
    hide After, MarkOffline;
    StepOfRun(clock, rows, steps, u);
  }

  // ------------------------------------------------ a close that hides an open stream

  lemma RunOn(clock: int, rows: seq<Row>, steps: seq<Step>, s: State, step: Step, t: State)
    requires After(clock, rows, steps) == Some(s) && Enabled(s, step) && Apply(s, step) == t
    ensures After(clock, rows, steps + [step]) == Some(t)
  {
    hide Enabled, Apply;
    assert (steps + [step])[..|steps|] == steps;
  }

  /** Two streams of one credential open, and the first closes. */
  ghost function OverlappingSteps(entityID: string, prefix: string, name: string): seq<Step> {
    var start := Start(entityID, prefix, name);
    [] + [start] + [start] + [Connect(0)] + [Connect(1)] + [Disconnect(0)]
  }

  lemma BothOpen(entityID: string, prefix: string, name: string)
    requires entityID != "" && prefix != ""
    ensures var start := Start(entityID, prefix, name);
            var row := Row(entityID, Credential(prefix), true, 0, UserAgent(name), "SESSION_BOT_" + prefix, "bot");
            var x := Stream(entityID, prefix, name, Open);
            After(0, [], [] + [start] + [start] + [Connect(0)] + [Connect(1)]) == Some(State(0, [row], [x, x], []))
  {
    NothingStarted();
    hide After, UserAgent;
    var start := Start(entityID, prefix, name);
    var row := Row(entityID, Credential(prefix), true, 0, UserAgent(name), "SESSION_BOT_" + prefix, "bot");
    var opening, x := Stream(entityID, prefix, name, Opening), Stream(entityID, prefix, name, Open);
    var steps := [] + [start];
    RunOn(0, [], [], State(0, [], [], []), start, State(0, [], [opening], []));
    RunOn(0, [], steps, State(0, [], [opening], []), start, State(0, [], [opening, opening], []));
    steps := steps + [start];
    RunOn(0, [], steps, State(0, [], [opening, opening], []), Connect(0), State(0, [row], [x, opening], []));
    RunOn(0, [], steps + [Connect(0)], State(0, [row], [x, opening], []), Connect(1), State(0, [row], [x, x], []));
  }

  lemma NothingStarted()
    ensures After(0, [], []) == Some(State(0, [], [], []))
  {
  }

  lemma FirstClosed(entityID: string, prefix: string, name: string)
    requires entityID != "" && prefix != ""
    ensures var row := Row(entityID, Credential(prefix), false, 0, UserAgent(name), "SESSION_BOT_" + prefix, "bot");
            var x := Stream(entityID, prefix, name, Open);
            After(0, [], OverlappingSteps(entityID, prefix, name))
            == Some(State(0, [row], [x.(phase := Waiting(0)), x], []))
  {
    var start := Start(entityID, prefix, name);
    var row := Row(entityID, Credential(prefix), true, 0, UserAgent(name), "SESSION_BOT_" + prefix, "bot");
    var x := Stream(entityID, prefix, name, Open);
    BothOpen(entityID, prefix, name);
    hide After, UserAgent;
    var both := State(0, [row], [x, x], []);
    var closed := State(0, [row.(status := false)], [x.(phase := Waiting(0)), x], []);
    assert Apply(both, Disconnect(0)) == closed;
    RunOn(0, [], [] + [start] + [start] + [Connect(0)] + [Connect(1)], both, Disconnect(0), closed);
  }

  /** With every write successful, the row then reads offline while the second stream is
      open. */
  lemma OverlappedCloseHidesStream(entityID: string, prefix: string, name: string)
    requires entityID != "" && prefix != ""
    ensures var steps := OverlappingSteps(entityID, prefix, name);
            && After(0, [], steps).Some? && !TruthfulAt(0, [], steps, |steps|, entityID, prefix)
            && forall k :: 0 <= k < |steps| ==> !steps[k].ConnectFails? && !steps[k].DisconnectFails?
    ensures var s := After(0, [], OverlappingSteps(entityID, prefix, name)).value;
            && !Online(s.rows, entityID, prefix)
            && OpenAt(s, 1, entityID, prefix)
            && !Truthful(s, entityID, prefix)
  {
    FirstClosed(entityID, prefix, name);
    hide After, UserAgent;
    var steps := OverlappingSteps(entityID, prefix, name);
    var s := After(0, [], steps).value;
    assert OpenAt(s, 1, entityID, prefix) && !Online(s.rows, entityID, prefix);
    assert steps[..|steps|] == steps;
  }

  /** After the grace period the first close announces the entity offline, every write and
      the re-read successful, while its second stream is open. */
  lemma OverlappedCloseAnnouncesOffline(entityID: string, prefix: string, name: string)
    requires entityID != "" && prefix != ""
    ensures var steps := OverlappingSteps(entityID, prefix, name) + [Tick(OFFLINE_GRACE)] + [Reread(0, true)]
                         + [Announce(0)];
            && After(0, [], steps).Some?
            && After(0, [], steps).value.offline == [0]
            && OpenAt(After(0, [], steps).value, 1, entityID, prefix)
  {
    FirstClosed(entityID, prefix, name);
    hide After, UserAgent, OverlappingSteps;
    var steps := OverlappingSteps(entityID, prefix, name);
    var row := Row(entityID, Credential(prefix), false, 0, UserAgent(name), "SESSION_BOT_" + prefix, "bot");
    var x := Stream(entityID, prefix, name, Open);
    var waiting, announcing := x.(phase := Waiting(0)), x.(phase := Announcing(0));
    var late := State(OFFLINE_GRACE, [row], [waiting, x], []);
    RunOn(0, [], steps, State(0, [row], [waiting, x], []), Tick(OFFLINE_GRACE), late);
    steps := steps + [Tick(OFFLINE_GRACE)];
    RunOn(0, [], steps, late, Reread(0, true), late.(streams := [announcing, x]));
    RunOn(0, [], steps + [Reread(0, true)], late.(streams := [announcing, x]), Announce(0),
          late.(streams := [x.(phase := Done), x], offline := [0]));
  }
}
