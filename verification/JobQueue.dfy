/** The job publisher's connection, channel and declared queues, against a broker that may
    close either at any moment. */
module JobQueue {
  import opened Collections

  /** What the broker saw, in order. A connection, like a channel, is named by the place in
      this log where it was opened. */
  datatype Action =
    | Dialed
    | DialFailed
    | Opened(conn: nat)
    | OpenFailed(conn: nat)
    | Declared(channel: nat, queue: string, ok: bool)
    | Published(channel: nat, queue: string, ok: bool)
    | Disposed

  /** What the publisher holds, and the broker's log. */
  datatype Pub = Pub(conn: Option<nat>, channel: Option<nat>, declared: set<string>, log: seq<Action>)

  /** What one call meets: whether the payload encodes, whether connection and channel have
      been closed by the time they are looked at, and how each request to the broker ends. */
  datatype Weather = Weather(
    encodes: bool, connClosed: bool, dials: bool, channelClosed: bool, opens: bool, declares: bool, publishes: bool)

  function EnsureConn(p: Pub, w: Weather): (Pub, bool) {
    if p.conn.None? || w.connClosed then
      if w.dials then (Pub(Some(|p.log|), None, {}, p.log + [Dialed]), true)
      else (p.(log := p.log + [DialFailed]), false)
    else (p, true)
  }

  function OpenChannel(p: Pub, w: Weather): (Pub, bool)
    requires p.conn.Some?
  {
    if p.channel.None? || w.channelClosed then
      if w.opens then (Pub(p.conn, Some(|p.log|), {}, p.log + [Opened(p.conn.value)]), true)
      else (p.(log := p.log + [OpenFailed(p.conn.value)]), false)
    else (p, true)
  }

  function Declare(p: Pub, queue: string, w: Weather): (Pub, bool)
    requires p.channel.Some?
  {
    if queue in p.declared then (p, true)
    else if w.declares then
      (p.(declared := p.declared + {queue}, log := p.log + [Declared(p.channel.value, queue, true)]), true)
    else (p.(log := p.log + [Declared(p.channel.value, queue, false)]), false)
  }

  function EnsureChannel(p: Pub, queue: string, w: Weather): (r: (Pub, bool))
    ensures r.1 ==> r.0.conn.Some? && r.0.channel.Some?
  {
    var (a, dialed) := EnsureConn(p, w);
    if !dialed then (a, false)
    else
      var (b, opens) := OpenChannel(a, w);
      if !opens then (b, false) else Declare(b, queue, w)
  }

  function Reset(p: Pub): Pub {
    Pub(None, None, {}, p.log + [Disposed])
  }

  function Send(p: Pub, queue: string, w: Weather): (Pub, bool)
    requires p.channel.Some?
  {
    var sent := p.(log := p.log + [Published(p.channel.value, queue, w.publishes)]);
    if w.publishes then (sent, true) else (Reset(sent), false)
  }

  function Publishing(url: string, p: Pub, queue: string, w: Weather): (Pub, bool) {
    if url == "" || !w.encodes then (p, false)
    else
      var (ready, ok) := EnsureChannel(p, queue, w);
      if !ok then (ready, false) else Send(ready, queue, w)
  }

  class Publisher {
    const url: string
    var conn: Option<nat>
    var channel: Option<nat>
    var declared: set<string>
    var log: seq<Action>

    constructor (url: string)
      ensures this.url == url && State() == Pub(None, None, {}, [])
    {
      this.url := url;
      conn, channel, declared, log := None, None, {}, [];
    }

    ghost function State(): Pub
      reads this
    {
      Pub(conn, channel, declared, log)
    }

    method Publish(queue: string, w: Weather) returns (ok: bool)
      modifies this
      ensures (State(), ok) == Publishing(url, old(State()), queue, w)
      ensures ok ==> |log| > |old(log)| && exists channel :: log[|log| - 1] == Published(channel, queue, true)
    {
      if url == "" || !w.encodes {
        return false;
      }
      var ready := EnsureReady(queue, w);
      if !ready {
        return false;
      }
      log := log + [Published(channel.value, queue, w.publishes)];
      if !w.publishes {
        Drop();
        return false;
      }
      return true;
    }

    method EnsureReady(queue: string, w: Weather) returns (ok: bool)
      modifies this
      ensures (State(), ok) == EnsureChannel(old(State()), queue, w)
    {
      if conn.None? || w.connClosed {
        if !w.dials {
          log := log + [DialFailed];
          return false;
        }
        conn, channel, declared := Some(|log|), None, {};
        log := log + [Dialed];
      }
      if channel.None? || w.channelClosed {
        if !w.opens {
          log := log + [OpenFailed(conn.value)];
          return false;
        }
        channel, declared := Some(|log|), {};
        log := log + [Opened(conn.value)];
      }
      if queue !in declared {
        log := log + [Declared(channel.value, queue, w.declares)];
        if !w.declares {
          return false;
        }
        declared := declared + {queue};
      }
      return true;
    }

    method Drop()
      modifies this
      ensures State() == Reset(old(State()))
    {
      log := log + [Disposed];
      conn, channel, declared := None, None, {};
    }

    method Close()
      modifies this
      ensures State() == Reset(old(State()))
    {
      Drop();
    }
  }

  // -------------------------------------------------------------------------- the runs

  datatype Call = Publish(queue: string, weather: Weather) | Close

  function Apply(url: string, p: Pub, call: Call): Pub {
    match call
    case Publish(queue, weather) => Publishing(url, p, queue, weather).0
    case Close => Reset(p)
  }

  function After(url: string, calls: seq<Call>): Pub {
    if calls == [] then Pub(None, None, {}, [])
    else Apply(url, After(url, calls[..|calls| - 1]), calls[|calls| - 1])
  }

  /** A publish happens only on an open channel where the queue was declared before. */
  ghost predicate DeclaredFirst(log: seq<Action>, k: nat) {
    k < |log| && log[k].Published? ==>
      && log[k].channel < k && log[log[k].channel].Opened?
      && Declared(log[k].channel, log[k].queue, true) in log[..k]
  }

  /** No queue is declared on a channel where it already was. */
  ghost predicate DeclaredOnce(log: seq<Action>, k: nat) {
    k < |log| && log[k].Declared? ==> Declared(log[k].channel, log[k].queue, true) !in log[..k]
  }

  /** After a failed publish, every later one uses a channel and a connection opened since. */
  ghost predicate FreshSince(log: seq<Action>, j: nat, k: nat) {
    j < k < |log| && log[j].Published? && !log[j].ok && log[k].Published? ==>
      && j < log[k].channel < k
      && log[log[k].channel].Opened?
      && j < log[log[k].channel].conn
  }

  ghost predicate Lawful(log: seq<Action>) {
    && (forall k: nat :: DeclaredFirst(log, k))
    && (forall k: nat :: DeclaredOnce(log, k))
    && (forall j: nat, k: nat :: FreshSince(log, j, k))
  }

  /** The connection and the channel held are open ones, newer than any failed publish, and
      `declared` is exactly what was declared on this channel. */
  ghost predicate Held(p: Pub) {
    && (p.conn.Some? ==> p.conn.value < |p.log| && p.log[p.conn.value] == Dialed && NoFailureSince(p.log, p.conn.value))
    && (p.channel.Some? ==>
          p.conn.Some? && p.channel.value < |p.log| && p.conn.value < p.channel.value
          && p.log[p.channel.value] == Opened(p.conn.value))
    && (p.channel.None? ==> p.declared == {})
    && (p.channel.Some? ==>
          forall q :: q in p.declared <==> Declared(p.channel.value, q, true) in p.log)
  }

  ghost predicate NoFailureSince(log: seq<Action>, since: nat) {
    forall j: nat :: since <= j < |log| && log[j].Published? ==> log[j].ok
  }

  /** Channels are named only by actions after they were opened. */
  ghost predicate NamesPast(log: seq<Action>) {
    forall k: nat :: k < |log| ==>
      (log[k].Declared? ==> log[k].channel < k) && (log[k].Published? ==> log[k].channel < k)
  }

  ghost predicate Good(p: Pub) {
    Lawful(p.log) && NamesPast(p.log) && Held(p)
  }

  /** Adding one action to a lawful log. */
  lemma LogGrows(log: seq<Action>, a: Action)
    requires Lawful(log) && NamesPast(log)
    requires a.Published? ==>
               && a.channel < |log| && log[a.channel].Opened? && Declared(a.channel, a.queue, true) in log
               && NoFailureSince(log, a.channel) && NoFailureSince(log, log[a.channel].conn)
    requires a.Declared? ==> a.channel < |log| && Declared(a.channel, a.queue, true) !in log
    ensures Lawful(log + [a]) && NamesPast(log + [a])
  {
    hide NoFailureSince;
    var all := log + [a];
    assert all[..|log|] == log;
    forall k: nat ensures DeclaredFirst(all, k) && DeclaredOnce(all, k) {
      if k < |log| {
        assert all[..k] == log[..k];
        assert DeclaredFirst(log, k) && DeclaredOnce(log, k);
      }
    }
    forall j: nat, k: nat ensures FreshSince(all, j, k) {
      FreshGrows(log, a, j, k);
    }
  }

  lemma FreshGrows(log: seq<Action>, a: Action, j: nat, k: nat)
    requires NamesPast(log) && FreshSince(log, j, k)
    requires a.Published? ==>
               && a.channel < |log| && log[a.channel].Opened?
               && NoFailureSince(log, a.channel) && NoFailureSince(log, log[a.channel].conn)
    ensures FreshSince(log + [a], j, k)
  {
    if j < k < |log| {
      assert (log + [a])[j] == log[j] && (log + [a])[k] == log[k];
    }
  }

  lemma ConnGood(p: Pub, w: Weather)
    requires Good(p)
    ensures Good(EnsureConn(p, w).0)
    ensures EnsureConn(p, w).1 ==> EnsureConn(p, w).0.conn.Some?
  {
    hide Lawful, NamesPast;
    LogGrows(p.log, Dialed);
    LogGrows(p.log, DialFailed);
  }

  lemma ChannelGood(p: Pub, w: Weather)
    requires Good(p) && p.conn.Some?
    ensures Good(OpenChannel(p, w).0)
    ensures OpenChannel(p, w).1 ==> OpenChannel(p, w).0.channel.Some?
  {
    hide Lawful;
    LogGrows(p.log, Opened(p.conn.value));
    LogGrows(p.log, OpenFailed(p.conn.value));
    NothingDeclaredYet(p.log, p.conn.value);
  }

  lemma NothingDeclaredYet(log: seq<Action>, conn: nat)
    requires NamesPast(log)
    ensures forall q :: Declared(|log|, q, true) !in log + [Opened(conn)]
  {
  }

  lemma DeclareGood(p: Pub, queue: string, w: Weather)
    requires Good(p) && p.channel.Some?
    ensures Good(Declare(p, queue, w).0)
    ensures Declare(p, queue, w).0.channel == p.channel
    ensures Declare(p, queue, w).1 ==> queue in Declare(p, queue, w).0.declared
  {
    hide Lawful, NamesPast;
    if queue !in p.declared {
      LogGrows(p.log, Declared(p.channel.value, queue, w.declares));
    }
  }

  lemma SendGood(p: Pub, queue: string, w: Weather)
    requires Good(p) && p.channel.Some? && queue in p.declared
    ensures Good(Send(p, queue, w).0)
  {
    hide Lawful, NamesPast;
    var a := Published(p.channel.value, queue, w.publishes);
    assert NoFailureSince(p.log, p.channel.value);
    LogGrows(p.log, a);
    LogGrows(p.log + [a], Disposed);
  }

  lemma ResetGood(p: Pub)
    requires Good(p)
    ensures Good(Reset(p))
  {
    hide Lawful, NamesPast;
    LogGrows(p.log, Disposed);
  }

  lemma CallGood(url: string, p: Pub, call: Call)
    requires Good(p)
    ensures Good(Apply(url, p, call))
  {
    hide Good, EnsureConn, OpenChannel, Declare, Send, Reset;
    match call
    case Close => ResetGood(p);
    case Publish(queue, w) =>
      if url != "" && w.encodes {
        ConnGood(p, w);
        var (a, dialed) := EnsureConn(p, w);
        if dialed {
          ChannelGood(a, w);
          var (b, opens) := OpenChannel(a, w);
          if opens {
            DeclareGood(b, queue, w);
            var (c, declares) := Declare(b, queue, w);
            if declares {
              SendGood(c, queue, w);
            }
          }
        }
      }
  }

  /** In every run of publishes and closes, whatever the broker does: a queue counts as
      declared exactly when it was declared on the channel held; nothing is published on a
      queue not declared on the channel used, nor declared there twice; and after a failed
      publish every later one uses a connection and a channel opened since. */
  lemma {:induction false} RunsKeepGood(url: string, calls: seq<Call>)
    ensures Good(After(url, calls))
  {
    if calls != [] {
      hide Good, Apply;
      RunsKeepGood(url, calls[..|calls| - 1]);
      CallGood(url, After(url, calls[..|calls| - 1]), calls[|calls| - 1]);
    }
  }

  /** The log went on from a to b without a send. */
  ghost predicate Quietly(a: seq<Action>, b: seq<Action>) {
    a <= b && forall k :: |a| <= k < |b| ==> !b[k].Published?
  }

  lemma EnsureIsQuiet(p: Pub, queue: string, w: Weather)
    ensures Quietly(p.log, EnsureChannel(p, queue, w).0.log)
  {
    var (a, dialed) := EnsureConn(p, w);
    assert Quietly(p.log, a.log);
    if dialed {
      var (b, opens) := OpenChannel(a, w);
      assert Quietly(a.log, b.log);
      if opens {
        assert Quietly(b.log, Declare(b, queue, w).0.log);
      }
    }
  }

  /** The call sent its job once, on its own queue, and nothing else: with a good answer last
      of all, or with a bad one and everything dropped after it. */
  ghost predicate SentOnce(a: seq<Action>, q: Pub, queue: string, ok: bool) {
    var n := |q.log| - if ok then 1 else 2;
    && |a| <= n && Quietly(a, q.log[..n])
    && q.log[n].Published? && q.log[n].queue == queue && q.log[n].ok == ok
    && (!ok ==> q.log[n + 1].Disposed? && q.conn.None? && q.channel.None?)
  }

  /** A call answers true exactly when it sent its job and the send reported no error, which
      without publisher confirms is all there is to know; a false answer means that it sent
      nothing, or that the send failed and everything was dropped. */
  lemma AnswersWhatWasSent(url: string, p: Pub, queue: string, w: Weather)
    ensures var (q, ok) := Publishing(url, p, queue, w);
            if ok then SentOnce(p.log, q, queue, true)
            else Quietly(p.log, q.log) || SentOnce(p.log, q, queue, false)
  {
    if url != "" && w.encodes {
      EnsureIsQuiet(p, queue, w);
      hide EnsureChannel, Quietly;
      var (ready, ok) := EnsureChannel(p, queue, w);
      if ok {
        var q := Send(ready, queue, w).0;
        assert q.log[..|ready.log|] == ready.log;
      }
    } else {
      assert Quietly(p.log, p.log);
    }
  }

  /** Without a broker address nothing is ever sent. */
  lemma {:induction false} UnconfiguredSendsNothing(calls: seq<Call>)
    ensures var p := After("", calls);
            p.conn.None? && forall k :: 0 <= k < |p.log| ==> p.log[k].Disposed?
  {
    if calls != [] {
      UnconfiguredSendsNothing(calls[..|calls| - 1]);
    }
  }

  // ------------------------------------------------------------------- jobs do get sent

  /** With an address and a payload that encodes, a call answers true exactly when every
      request it needs succeeds: a dial when no open connection is held, a channel when none
      is or the connection is new, a declaration when this channel has not had it. The broker
      then sees these requests, only what is needed, and the job at the end. */
  lemma WhenJobsAreSent(url: string, p: Pub, queue: string, w: Weather)
    ensures var dialing := p.conn.None? || w.connClosed;
            var opening := dialing || p.channel.None? || w.channelClosed;
            var declaring := opening || queue !in p.declared;
            var conn := if dialing then |p.log| else p.conn.value;
            var channel := if dialing then |p.log| + 1 else if opening then |p.log| else p.channel.value;
            var (q, ok) := Publishing(url, p, queue, w);
            && (ok <==> && url != "" && w.encodes && w.publishes
                        && (dialing ==> w.dials) && (opening ==> w.opens) && (declaring ==> w.declares))
            && (ok ==>
                  && q.conn == Some(conn) && q.channel == Some(channel)
                  && q.declared == (if opening then {} else p.declared) + {queue}
                  && q.log == p.log + (if dialing then [Dialed] else []) + (if opening then [Opened(conn)] else [])
                              + (if declaring then [Declared(channel, queue, true)] else [])
                              + [Published(channel, queue, true)])
  {
    assert p.log + [] == p.log && |p.log + [Dialed]| == |p.log| + 1;
    assert p.log + [] + [] == p.log;
    assert queue in p.declared ==> p.declared + {queue} == p.declared;
  }

  /** A connection or a channel seen closed is not published on: the job goes to what was opened
      in this very call. */
  lemma ClosedIsNotUsed(url: string, p: Pub, queue: string, w: Weather)
    requires Publishing(url, p, queue, w).1
    ensures var q := Publishing(url, p, queue, w).0;
            && q.log[|q.log| - 1].Published? && q.channel == Some(q.log[|q.log| - 1].channel)
            && (w.connClosed ==> q.conn.value >= |p.log| && q.channel.value >= |p.log|)
            && (w.channelClosed ==> q.channel.value >= |p.log|)
  {
    hide Publishing;
    WhenJobsAreSent(url, p, queue, w);
  }
}
