/**
 One connection's difficulty beside its jobs: the connection's own thread writes the
 difficulty and queues the message that tells the miner, while the thread swapping jobs
 reads that difficulty without a lock, records it for the job and writes the notify on
 its own (src/stratum.c).
 */
module JudgedDifficulty {
  import opened Options
  import D = Difficulty
  import J = JobDifficulty
  import Jobs

  /** A port as configured. */
  datatype Port = Port(cfg: D.Config, policy: D.Policy)

  ghost predicate Sane(port: Port) {
    D.Sane(port.cfg, port.policy)
  }

  /**
   When a job's difficulty was recorded: how many difficulties had gone out, whether one
   was waiting to, and whether that one was a change (an authorize tells in any case).
   */
  datatype Mark = Mark(sent: nat, pending: bool, news: bool) {
    /** Which difficulty message was in force, counted from one. */
    function Issued(): nat {
      if pending then sent + 1 else sent
    }
  }

  /** A notify on the wire: its record, who wrote it, how many difficulties were out by then, and the last of them. */
  datatype Delivery = Delivery(record: nat, broadcast: bool, sent: nat, told: Option<real>)

  /**
   The two histories, whether a waiting difficulty is a change, the mark of every record,
   the records whose notify is not written yet, and the wire.
   */
  datatype World = World(jobs: seq<J.Event>, conn: seq<D.Event>, news: bool, marks: seq<Mark>, own: Option<nat>,
                         held: Option<nat>, wire: seq<Delivery>)

  datatype Event =
    | Serve(step: Jobs.Step)
    | Handle(event: D.Event, renders: bool)  // the connection's own thread; an authorize queues a notify if it renders
    | Record                                 // the broadcast reads the difficulty and records it
    | Write                                  // and writes the notify

  ghost function Server(w: World): (s: J.World)
    ensures J.Safe(s)
  {
    J.After(w.jobs)
  }

  ghost function Conn(port: Port, w: World): D.World
    requires Sane(port)
  {
    D.After(port.cfg, port.policy, w.conn)
  }

  /** Every difficulty told or about to be told, in order. */
  function Values(d: D.World): (r: seq<real>)
    ensures |r| == |d.sent| + (if d.pending.Some? then 1 else 0)
    ensures forall i :: 0 <= i < |d.sent| ==> r[i] == d.sent[i].message.value
    ensures d.pending.Some? ==> r[|d.sent|] == d.pending.value.value
  {
    seq(|d.sent|, i requires 0 <= i < |d.sent| => d.sent[i].message.value)
    + if d.pending.Some? then [d.pending.value.value] else []
  }

  function LastTold(d: D.World): Option<real> {
    if d.sent == [] then None else Some(d.sent[|d.sent| - 1].message.value)
  }

  /** The current job's difficulty goes into the ring. */
  ghost function Recorded(port: Port, w: World): World
    requires Sane(port)
  {
    var d := Conn(port, w);
    w.(jobs := w.jobs + [J.Notify(d.conn.difficulty)],
       marks := w.marks + [Mark(|d.sent|, d.pending.Some?, d.pending.Some? && w.news)])
  }

  /** An event of the connection alone. */
  ghost function Stepped(port: Port, w: World, e: D.Event): World
    requires Sane(port)
  {
    w.(conn := w.conn + [e], news := if Conn(port, w).pending.None? then !e.Authorize? else w.news)
  }

  /** The connection's own thread handles one event: an authorize queues its notify behind the difficulty. */
  ghost function Handled(port: Port, w: World, e: D.Event, renders: bool): World
    requires Sane(port)
  {
    var d, w1 := Conn(port, w), Stepped(port, w, e);
    if e.Authorize? && e.earlier >= 0.0 && d.pending.None? && renders && Server(w).server.current.Some? then
      Recorded(port, w1).(own := Some(|w.marks|))
    else if e.Send? && w.own.Some? then
      var after := Conn(port, w1);
      w1.(own := None, wire := w.wire + [Delivery(w.own.value, false, |after.sent|, LastTold(after))])
    else w1
  }

  ghost function Next(port: Port, w: World, e: Event): World
    requires Sane(port)
  {
    var d := Conn(port, w);
    match e
    case Serve(step) => w.(jobs := w.jobs + [J.Server(step)])
    case Handle(event, renders) => Handled(port, w, event, renders)
    case Record =>
      if d.conn.authorized && Server(w).server.current.Some? && w.held.None?
      then Recorded(port, w).(held := Some(|w.marks|)) else w
    case Write =>
      if w.held.None? then w
      else w.(held := None, wire := w.wire + [Delivery(w.held.value, true, |d.sent|, LastTold(d))])
  }

  const START := World([], [], false, [], None, None, [])

  ghost function After(port: Port, events: seq<Event>): World
    requires Sane(port)
  {
    if events == [] then START else Next(port, After(port, events[..|events| - 1]), events[|events| - 1])
  }

  // ---- what was in force at each record --------------------------------

  /** Record k carries the difficulty message in force at its mark. */
  ghost predicate RecordOk(log: seq<J.Notice>, marks: seq<Mark>, values: seq<real>, k: nat)
    requires k < |log| && k < |marks|
  {
    && 1 <= marks[k].Issued() <= |values| && log[k].difficulty == values[marks[k].Issued() - 1] > 0.0
    && (marks[k].news ==> marks[k].pending && marks[k].sent > 0 && values[marks[k].sent - 1] != values[marks[k].sent])
  }

  ghost predicate RecordsOk(log: seq<J.Notice>, marks: seq<Mark>, values: seq<real>) {
    |marks| == |log| && forall k: nat :: k < |log| ==> RecordOk(log, marks, values, k)
  }

  /** What was told at a delivery is the last message out by then; the own thread's notify follows its difficulty. */
  ghost predicate DeliveryOk(marks: seq<Mark>, d: D.World, x: Delivery) {
    && x.record < |marks| && x.sent <= |d.sent|
    && x.told == (if x.sent == 0 then None else Some(Values(d)[x.sent - 1]))
    && (!x.broadcast ==> x.sent == marks[x.record].Issued())
  }

  /** The difficulty held is not the one the miner was last told. */
  predicate IsNews(d: D.World) {
    d.sent != [] && d.sent[|d.sent| - 1].message.value != d.conn.difficulty
  }

  ghost predicate Inv(port: Port, w: World)
    requires Sane(port)
  {
    var d := Conn(port, w);
    && RecordsOk(Server(w).log, w.marks, Values(d))
    && (d.pending.Some? && w.news ==> IsNews(d))
    && (w.own.Some? ==>
          && w.own.value < |w.marks| && d.pending.Some?
          && w.marks[w.own.value].pending && w.marks[w.own.value].sent == |d.sent|)
    && (w.held.Some? ==> w.held.value < |w.marks|)
    && forall i :: 0 <= i < |w.wire| ==> DeliveryOk(w.marks, d, w.wire[i])
  }

  lemma ConnStep(port: Port, w: World, e: D.Event)
    requires Sane(port)
    ensures Conn(port, Stepped(port, w, e)) == D.Next(port.cfg, Conn(port, w), e)
  {
    hide D.Next;
    D.AfterStep(port.cfg, port.policy, w.conn, e);
  }

  /** Messages are only added: sent ones stay, and a waiting one is the next to go. */
  lemma ValuesGrow(cfg: D.Config, d: D.World, e: D.Event)
    requires cfg.windowMs > 0 && cfg.targetSpm > 0.0
    ensures var d' := D.Next(cfg, d, e);
      && Values(d) <= Values(d') && |d.sent| <= |d'.sent|
      && (!e.Send? && d.pending.Some? ==> d'.pending == d.pending && d'.sent == d.sent)
  {
    hide D.Clamp, D.Requested, D.Retargeted, D.Counted, D.Authorized, D.Asked, D.CutRequest, D.Aimed;
  }

  /** An authorized connection's difficulty is the last message issued. */
  lemma DifficultyIsIssued(port: Port, w: World)
    requires Sane(port)
    ensures var d := Conn(port, w);
      d.conn.authorized ==> Values(d) != [] && d.conn.difficulty == Values(d)[|Values(d)| - 1] > 0.0
  {
    D.RunKeepsInv(port.cfg, port.policy, w.conn);
    hide D.After, D.MessageOk;
  }

  lemma ServerStep(w: World, e: J.Event)
    ensures Server(w.(jobs := w.jobs + [e])) == J.Next(Server(w), e)
  {
    hide J.Next, J.Safe;
    assert (w.jobs + [e])[..|w.jobs|] == w.jobs;
  }

  lemma LogStep(w: World, e: J.Event)
    ensures var log := Server(w.(jobs := w.jobs + [e])).log;
      if e.Notify? && Server(w).server.current.Some?
      then log == Server(w).log + [J.Notice(Server(w).server.current.value, e.difficulty)]
      else log == Server(w).log
  {
    hide Server, Jobs.Next, J.Recorded;
    ServerStep(w, e);
  }

  lemma DeliveriesCarry(marks: seq<Mark>, d: D.World, marks': seq<Mark>, d': D.World, wire: seq<Delivery>)
    requires marks <= marks' && Values(d) <= Values(d') && |d.sent| <= |d'.sent|
    requires forall i :: 0 <= i < |wire| ==> DeliveryOk(marks, d, wire[i])
    ensures forall i :: 0 <= i < |wire| ==> DeliveryOk(marks', d', wire[i])
  {
    hide Values;
  }

  lemma RecordKeeps(port: Port, w: World)
    requires Sane(port) && Inv(port, w)
    requires Conn(port, w).conn.authorized && Server(w).server.current.Some?
    ensures Inv(port, Recorded(port, w)) && Conn(port, Recorded(port, w)) == Conn(port, w)
  {
    hide Server, D.After, DeliveryOk;
    var d := Conn(port, w);
    LogStep(w, J.Notify(d.conn.difficulty));
    DifficultyIsIssued(port, w);
    var w' := Recorded(port, w);
    DeliveriesCarry(w.marks, d, w'.marks, d, w.wire);
    assert Server(w').log == Server(w.(jobs := w'.jobs)).log by { SameServer(w', w.(jobs := w'.jobs)); }
    forall k: nat | k < |w'.marks| ensures RecordOk(Server(w').log, w'.marks, Values(d), k) {
      if k < |w.marks| { assert RecordOk(Server(w).log, w.marks, Values(d), k); }
    }
  }

  lemma SameServer(w: World, w': World)
    requires w.jobs == w'.jobs
    ensures Server(w) == Server(w')
  {
  }

  /** A retarget or a request is told only when it is a change, so while it waits the miner holds another difficulty. */
  lemma PendingIsNews(port: Port, w: World, e: D.Event)
    requires Sane(port)
    ensures var d, d' := Conn(port, w), Conn(port, Stepped(port, w, e));
      d.pending.None? && !e.Authorize? && d'.pending.Some? ==> IsNews(d')
    ensures var d, d' := Conn(port, w), Conn(port, Stepped(port, w, e));
      d.pending.Some? && d'.pending.Some? && IsNews(d) ==> IsNews(d')
  {
    D.RunKeepsInv(port.cfg, port.policy, w.conn);
    ConnStep(port, w, e);
    hide D.After, D.MessageOk, D.Clamp, D.Requested, D.Retargeted, D.Counted, D.Aimed, D.CutRequest;
  }

  /** The own thread's event alone, before any notify. */
  lemma ConnKeeps(port: Port, w: World, e: D.Event)
    requires Sane(port) && Inv(port, w) && (e.Send? ==> w.own.None?)
    ensures Inv(port, Stepped(port, w, e))
  {
    hide D.After, D.Next, Server;
    var d, w' := Conn(port, w), Stepped(port, w, e);
    ConnStep(port, w, e);
    ValuesGrow(port.cfg, d, e);
    SameServer(w, w');
    var d' := Conn(port, w');
    DeliveriesCarry(w.marks, d, w.marks, d', w.wire);
    PendingIsNews(port, w, e);
    forall k: nat | k < |w.marks| ensures RecordOk(Server(w').log, w'.marks, Values(d'), k) {
      assert RecordOk(Server(w).log, w.marks, Values(d), k);
    }
  }

  /** The queued difficulty and the notify behind it go out together. */
  lemma SendKeeps(port: Port, w: World, renders: bool)
    requires Sane(port) && Inv(port, w) && w.own.Some?
    ensures Inv(port, Handled(port, w, D.Send, renders))
  {
    hide D.After, Server;
    var d, w' := Conn(port, w), Handled(port, w, D.Send, renders);
    SameServer(w, w');
    SameServer(w, w.(own := None));
    SameServer(w, Stepped(port, w.(own := None), D.Send));
    ConnStep(port, w, D.Send);
    ConnKeeps(port, w.(own := None), D.Send);
  }

  /** After an authorize the difficulty is waiting to be told. */
  lemma AuthorizeIssues(cfg: D.Config, d: D.World, e: D.Event)
    requires cfg.windowMs > 0 && cfg.targetSpm > 0.0
    requires e.Authorize? && e.earlier >= 0.0 && d.pending.None?
    ensures D.Next(cfg, d, e).conn.authorized && D.Next(cfg, d, e).pending.Some?
  {
  }

  lemma HandleKeeps(port: Port, w: World, e: D.Event, renders: bool)
    requires Sane(port) && Inv(port, w)
    ensures Inv(port, Handled(port, w, e, renders))
  {
    if e.Send? && w.own.Some? {
      SendKeeps(port, w, renders);
    } else {
      hide D.After, D.Next, Server;
      ConnKeeps(port, w, e);
      var w1 := Stepped(port, w, e);
      SameServer(w, w1);
      if e.Authorize? && e.earlier >= 0.0 && Conn(port, w).pending.None? && renders && Server(w).server.current.Some? {
        ConnStep(port, w, e);
        AuthorizeIssues(port.cfg, Conn(port, w), e);
        RecordKeeps(port, w1);
        SameServer(Recorded(port, w1), Handled(port, w, e, renders));
      }
    }
  }

  lemma StepKeepsInv(port: Port, w: World, e: Event)
    requires Sane(port) && Inv(port, w)
    ensures Inv(port, Next(port, w, e))
  {
    hide D.After, Server, Handled;
    match e {
      case Serve(step) => LogStep(w, J.Server(step));
      case Handle(event, renders) => HandleKeeps(port, w, event, renders);
      case Record =>
        if Next(port, w, e) != w {
          RecordKeeps(port, w);
          SameServer(Recorded(port, w), Next(port, w, e));
        }
      case Write => SameServer(w, Next(port, w, e));
    }
  }

  lemma {:induction false} RunKeepsInv(port: Port, events: seq<Event>)
    requires Sane(port)
    ensures Inv(port, After(port, events))
  {
    if events != [] {
      hide Inv, Next;
      RunKeepsInv(port, events[..|events| - 1]);
      StepKeepsInv(port, After(port, events[..|events| - 1]), events[|events| - 1]);
    }
  }

  // ---- judged as told --------------------------------------------------

  /** The latest record of a job decides. */
  lemma {:induction false} LatestDecides(log: seq<J.Notice>, k: nat)
    requires k < |log| && log[k].difficulty > 0.0
    requires forall i :: k < i < |log| ==> log[i].job != log[k].job
    ensures J.Agreed(log, log[k].job) == log[k].difficulty && log[k].job in J.Told(log)
  {
    var n := |log| - 1;
    if k < n { LatestDecides(log[..n], k); }
  }

  /** The latest notify of its job that the pool recorded. */
  ghost predicate IsLatest(log: seq<J.Notice>, k: nat) {
    k < |log| && forall i :: k < i < |log| ==> log[i].job != log[k].job
  }

  ghost predicate IsRecent(s: J.World, j: nat) {
    Jobs.UniqueIds(s.server.ring.jobs) && |s.server.ring.jobs| - J.JOB_DIFF_RING <= j
  }

  /** What a submit for the job of record k is judged at. */
  ghost function Judged(s: J.World, k: nat): real
    requires J.Sized(s.conn) && k < |s.log| && s.log[k].job < |s.server.ring.jobs|
  {
    J.Looked(s.conn, s.server.ring.jobs[s.log[k].job].id)
  }

  lemma JudgedAtRecord(jobs: seq<J.Event>, k: nat)
    requires var s := J.After(jobs); IsLatest(s.log, k) && IsRecent(s, s.log[k].job) && s.log[k].difficulty > 0.0
    ensures var s := J.After(jobs); s.log[k].job < |s.server.ring.jobs| && Judged(s, k) == s.log[k].difficulty
  {
    hide J.Looked, J.Told, J.Agreed, Jobs.UniqueIds, J.After;
    var s := J.After(jobs);
    LatestDecides(s.log, k);
    JobIsKnown(jobs, s.log[k].job);
    J.JudgedAsAgreed(jobs, s.log[k].job);
  }

  lemma JobIsKnown(events: seq<J.Event>, j: nat)
    requires var w := J.After(events); Jobs.UniqueIds(w.server.ring.jobs) && j in J.Told(w.log)
    ensures j < |J.After(events).server.ring.jobs|
  {
    hide J.After, J.Told, J.Holds, J.Safe, Jobs.UniqueIds;
    J.RunKeepsInv(events);
  }

  lemma DeliveriesOk(port: Port, w: World, x: Delivery)
    requires Sane(port) && Inv(port, w) && x in w.wire
    ensures RecordsOk(Server(w).log, w.marks, Values(Conn(port, w))) && DeliveryOk(w.marks, Conn(port, w), x)
    ensures x.sent <= |Values(Conn(port, w))| && |w.marks| == |Server(w).log|
    ensures x.record < |w.marks| && (!x.broadcast ==> x.sent == w.marks[x.record].Issued())
  {
    hide D.After, Server;
  }

  /** The delivery and the record behind it are for difficulty messages; told is judged exactly when these agree. */
  lemma DeliveredAsRecorded(log: seq<J.Notice>, marks: seq<Mark>, d: D.World, x: Delivery)
    requires RecordsOk(log, marks, Values(d)) && DeliveryOk(marks, d, x)
    ensures log[x.record].difficulty > 0.0
    ensures 1 <= marks[x.record].Issued() <= |Values(d)|
    ensures x.told == Some(log[x.record].difficulty) <==>
      x.sent == marks[x.record].Issued()
      || (x.sent > 0 && Values(d)[x.sent - 1] == Values(d)[marks[x.record].Issued() - 1])
    ensures x.sent == marks[x.record].sent && marks[x.record].news ==> x.told != Some(log[x.record].difficulty)
  {
    assert RecordOk(log, marks, Values(d), x.record);
  }

  /**
   Over every run of swaps, broadcasts, authorizes, requests and shares, with the
   broadcast's read and its write at any point: a job is judged at what the miner had been
   told when its notify went out exactly when the last difficulty out by then is the one
   that was in force at the record, or carries the same value. With nothing sent between
   record and write, it is not when a changed difficulty was pending at the record, and it
   is when none was pending. The notify of the connection's own thread is always so.
   */
  lemma JudgedAsTold(port: Port, events: seq<Event>, w: World, x: Delivery)
    requires Sane(port) && w == After(port, events) && x in w.wire
    requires IsLatest(Server(w).log, x.record) && IsRecent(Server(w), Server(w).log[x.record].job)
    ensures x.record < |w.marks| && Server(w).log[x.record].job < |Server(w).server.ring.jobs|
    ensures var told := x.told == Some(Judged(Server(w), x.record));
      var values, mark := Values(Conn(port, w)), w.marks[x.record];
      && 1 <= mark.Issued() <= |values| && x.sent <= |values|
      && (told <==> x.sent == mark.Issued() || (x.sent > 0 && values[x.sent - 1] == values[mark.Issued() - 1]))
      && (x.sent == mark.sent && !mark.pending ==> told)
      && (x.sent == mark.sent && mark.news ==> !told)
      && (!x.broadcast ==> told)
  {
    hide After, Inv, D.After, J.After, J.Safe, RecordsOk, DeliveryOk, Judged, IsRecent, Values;
    RunKeepsInv(port, events);
    DeliveriesOk(port, w, x);
    DeliveredAsRecorded(Server(w).log, w.marks, Conn(port, w), x);
    JudgedAtRecord(w.jobs, x.record);
  }

  // ---- a notify overtakes a difficulty ---------------------------------

  /** A pool taking requests up to 100, and a port starting at 1. */
  const OVERTAKEN: Port :=
    Port(D.Config(false, 1, 1.0, 0, 0, 0.0, 100.0), D.Policy(1.0, 0.0, 0.0, 0.0))

  /** The miner authorizes and is told 1; it asks for 50, and a new job is broadcast before the answer is written. */
  const OVERTAKING: seq<Event> := [
    Serve(Jobs.Publish("a", 0)), Handle(D.NewJob(1000.0), true), Handle(D.Authorize(1000.0, 0.0, 0), true),
    Handle(D.Send, true), Handle(D.Suggest(50.0), true), Serve(Jobs.Publish("b", 0)), Record, Write]

  lemma AfterStep(port: Port, events: seq<Event>, n: nat)
    requires Sane(port) && n < |events|
    ensures After(port, events[..n + 1]) == Next(port, After(port, events[..n]), events[n])
  {
    hide Next;
    assert events[..n + 1][..n] == events[..n];
  }

  lemma AfterNone(port: Port, events: seq<Event>)
    requires Sane(port)
    ensures After(port, events[..0]) == START
  {
  }

  const FRESH_C: seq<D.Event> := [] + [D.NewJob(1000.0)]
  const AUTHORIZED_C: seq<D.Event> := FRESH_C + [D.Authorize(1000.0, 0.0, 0)]
  const TOLD_C: seq<D.Event> := AUTHORIZED_C + [D.Send]
  const ASKED_C: seq<D.Event> := TOLD_C + [D.Suggest(50.0)]

  /** The connection's side of the run. */
  lemma OvertakingConn()
    ensures var c, p := OVERTAKEN.cfg, OVERTAKEN.policy;
      var queued, told, asked := D.After(c, p, AUTHORIZED_C), D.After(c, p, TOLD_C), D.After(c, p, ASKED_C);
      && D.After(c, p, []).pending.None? && D.After(c, p, FRESH_C).pending.None?
      && queued.pending.Some? && queued.sent == [] && queued.conn.difficulty == 1.0
      && told.pending.None? && |told.sent| == 1 && told.sent[0].message.value == 1.0
      && asked.pending.Some? && asked.sent == told.sent && asked.conn.authorized && asked.conn.difficulty == 50.0
  {
    hide D.After;
    var c, p := OVERTAKEN.cfg, OVERTAKEN.policy;
    D.AfterNothing(c, p);
    D.AfterStep(c, p, [], D.NewJob(1000.0));
    D.AfterStep(c, p, FRESH_C, D.Authorize(1000.0, 0.0, 0));
    D.AfterStep(c, p, AUTHORIZED_C, D.Send);
    D.AfterStep(c, p, TOLD_C, D.Suggest(50.0));
  }

  const FIRST_J: seq<J.Event> := [] + [J.Server(Jobs.Publish("a", 0))]
  const RECORDED_J: seq<J.Event> := FIRST_J + [J.Notify(1.0)]
  const SECOND_J: seq<J.Event> := RECORDED_J + [J.Server(Jobs.Publish("b", 0))]
  const OVERTOOK_J: seq<J.Event> := SECOND_J + [J.Notify(50.0)]

  lemma JobsStep(events: seq<J.Event>, e: J.Event)
    ensures J.After(events + [e]) == J.Next(J.After(events), e)
  {
    hide J.Next, J.Safe;
    assert (events + [e])[..|events|] == events;
  }

  lemma JobsStart()
    ensures J.After([]) == J.Start()
  {
  }

  /** The server's side. */
  lemma OvertakingServer()
    ensures J.After(FIRST_J).server.current == Some(0) && J.After(RECORDED_J).server.current == Some(0)
    ensures J.After(SECOND_J).server.current == Some(1)
    ensures var s := J.After(OVERTOOK_J);
      && s.log == [J.Notice(0, 1.0), J.Notice(1, 50.0)]
      && |s.server.ring.jobs| == 2 && s.server.ring.jobs[0].id == "a" && s.server.ring.jobs[1].id == "b"
  {
    hide J.After, J.Recorded;
    JobsStart();
    JobsStep([], J.Server(Jobs.Publish("a", 0)));
    JobsStep(FIRST_J, J.Notify(1.0));
    JobsStep(RECORDED_J, J.Server(Jobs.Publish("b", 0)));
    JobsStep(SECOND_J, J.Notify(50.0));
  }

  const OVERTOOK: World :=
    World(OVERTOOK_J, ASKED_C, true, [Mark(0, true, false), Mark(1, true, true)], None, None,
          [Delivery(0, false, 1, Some(1.0)), Delivery(1, true, 1, Some(1.0))])

  lemma OvertakingRun()
    ensures After(OVERTAKEN, OVERTAKING) == OVERTOOK
  {
    OvertakingConn();
    OvertakingServer();
    hide D.After, J.After, J.Safe, After;
    AfterNone(OVERTAKEN, OVERTAKING);
    AfterStep(OVERTAKEN, OVERTAKING, 0);
    AfterStep(OVERTAKEN, OVERTAKING, 1);
    AfterStep(OVERTAKEN, OVERTAKING, 2);
    AfterStep(OVERTAKEN, OVERTAKING, 3);
    assert After(OVERTAKEN, OVERTAKING[..4]) ==
      World(RECORDED_J, TOLD_C, false, [Mark(0, true, false)], None, None, [Delivery(0, false, 1, Some(1.0))]);
    AfterStep(OVERTAKEN, OVERTAKING, 4);
    AfterStep(OVERTAKEN, OVERTAKING, 5);
    AfterStep(OVERTAKEN, OVERTAKING, 6);
    AfterStep(OVERTAKEN, OVERTAKING, 7);
    assert OVERTAKING[..8] == OVERTAKING;
  }

  /** So the miner mines the new job at 1, the only difficulty it was ever told, and its shares are judged at 50. */
  lemma NotifyOvertakes()
    ensures var w := After(OVERTAKEN, OVERTAKING);
      && |w.wire| == 2 && w.wire[1].record == 1 && w.wire[1].told == Some(1.0)
      && J.Looked(Server(w).conn, "b") == 50.0
  {
    hide J.After, J.Safe, J.Looked, After;
    OvertakingRun();
    OvertakingServer();
    JudgedAtRecord(OVERTOOK_J, 1);
  }
}
