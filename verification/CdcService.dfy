/**
 FilterCDC of cloudevent/cefilter/mongostore/cdc.go: every state its methods pass
 through is a state of the protocol.
 */
module CdcService {
  import opened Wrappers
  import opened Cdc

  datatype Listed = Listed(name: Name, doc: Document)

  ghost function DocsOf(docs: seq<Listed>): map<Name, Document>
  {
    if docs == [] then map[] else DocsOf(docs[..|docs| - 1])[docs[|docs| - 1].name := docs[|docs| - 1].doc]
  }

  lemma {:induction false} DocsOfKeys(docs: seq<Listed>)
    ensures forall n :: n in DocsOf(docs) <==> exists i :: 0 <= i < |docs| && docs[i].name == n
  {
    if docs != [] { DocsOfKeys(docs[..|docs| - 1]); }
  }

  ghost predicate DistinctDocs(docs: seq<Listed>)
  {
    forall i, j :: 0 <= i < j < |docs| ==> docs[i].name != docs[j].name
  }

  lemma {:induction false} DocsOfAt(docs: seq<Listed>, i: nat)
    requires DistinctDocs(docs) && i < |docs|
    ensures docs[i].name in DocsOf(docs) && DocsOf(docs)[docs[i].name] == docs[i].doc
  {
    if i < |docs| - 1 { DocsOfAt(docs[..|docs| - 1], i); }
  }

  lemma ListOneMore(docs: seq<Listed>, d: Listed)
    requires DistinctDocs(docs) && d.name !in DocsOf(docs)
    ensures DistinctDocs(docs + [d]) && DocsOf(docs + [d]) == DocsOf(docs)[d.name := d.doc]
  {
    assert (docs + [d])[..|docs|] == docs;
    DocsOfKeys(docs);
  }

  method Enumerate(active: map<Name, Document>) returns (listed: seq<Listed>)
    ensures DistinctDocs(listed) && DocsOf(listed) == active
  {
    listed := [];
    var done := map[];
    while active.Keys - done.Keys != {}
      invariant done.Keys <= active.Keys && DistinctDocs(listed) && DocsOf(listed) == done
      invariant forall n :: n in done ==> done[n] == active[n]
      decreases active.Keys - done.Keys
    {
      var n :| n in active.Keys - done.Keys;
      ListOneMore(listed, Listed(n, active[n]));
      listed := listed + [Listed(n, active[n])];
      done := done[n := active[n]];
    }
    assert active.Keys <= (active.Keys - done.Keys) + done.Keys;
    assert done == active;
  }

  /**
   What the deployment and the caller can do to a run: an error, an error that says
   the position is lost, a send refused because of a cancellation, and a context
   found cancelled.
   */
  datatype Fault = Failure | Loss | Refused | Done

  datatype WatchResult = Opened(token: Option<nat>) | WatchFailed(lost: bool)

  datatype NextResult =
    | Got(event: Event, found: Option<Body>, index: nat, token: nat)
    | Ended
    | StreamFailed(lost: bool)

  /**
   The deployment and the caller's channel. During every call any number of
   writes may arrive, and calls may fail: the bodies below are one behaviour,
   the contracts are all that FilterCDC relies on.
   */
  class World {
    var log: seq<Event>
    var inbox: seq<Change>
    /** Where the open stream stands: at its start, or behind the last event it has handed out. */
    var delivered: nat
    /** Every fault raised so far, and the answers of every hello command; only the methods here add to them. */
    var faults: seq<Fault>
    var pins: seq<Option<nat>>

    constructor ()
      ensures log == [] && inbox == [] && faults == [] && pins == []
    {
      log, inbox, delivered, faults, pins := [], [], 0, [], [];
    }

    /** The hello command. */
    method CurrentOpTime() returns (t: Option<nat>)
      modifies `log, `faults, `pins
      ensures old(log) <= log && pins == old(pins) + [t]
      ensures t.Some? ==> t.value <= |log| && faults == old(faults)
      ensures t.None? ==> IsError(old(faults), faults)
    {
      t, pins := Some(|log|), pins + [Some(|log|)];
    }

    /** ListActive: each name is read at its own moment during the call. */
    method ListActive() returns (docs: Option<seq<Listed>>)
      modifies `log, `faults
      ensures old(log) <= log && (docs.Some? ==> faults == old(faults))
      ensures docs.None? ==> IsError(old(faults), faults)
      ensures docs.Some? ==> DistinctDocs(docs.value) && ReadSometime(log, old(|log|), DocsOf(docs.value))
    {
      var store := StoreAt(log, |log|);
      if !ListSucceeds(store) {
        faults := faults + [Failure];
        return None;
      }
      var listed := Enumerate(ActiveDocs(store));
      ListNow(log);
      docs := Some(listed);
    }

    /** chanSend: the change is received, or the context was cancelled. */
    method Send(c: Change) returns (ok: bool)
      modifies `log, `inbox, `faults
      ensures old(log) <= log && faults == old(faults) + (if ok then [] else [Refused])
      ensures inbox == old(inbox) + (if ok then [c] else [])
    {
      inbox := inbox + [c];
      ok := true;
    }

    /** The error at hand. */
    method LastFault() returns (f: Fault)
      requires faults != []
      ensures f == faults[|faults| - 1]
    {
      f := faults[|faults| - 1];
    }

    /** Whether the context has been cancelled. */
    method IsCancelled() returns (cancelled: bool)
      modifies `faults
      ensures faults == old(faults) + (if cancelled then [Done] else [])
    {
      cancelled := false;
    }

    method Watch(pos: nat) returns (r: WatchResult)
      requires pos <= |log|
      modifies `log, `delivered, `faults
      ensures old(log) <= log
      ensures faults == old(faults) + (if r.Opened? then [] else if r.lost then [Loss] else [Failure])
      ensures r.Opened? ==> delivered == pos && (r.token.Some? ==> Quiet(log, pos, r.token.value))
    {
      r, delivered := Opened(None), pos;
    }

    /**
     cs.Next: passes by other collections' writes; the document of an update is looked
     up at position seenAt. The token of the stream stands behind the event, and at
     the end of a batch maybe behind later writes to other collections.
     */
    method Next() returns (r: NextResult, ghost seenAt: nat, ghost stop: nat)
      requires delivered <= |log|
      modifies `log, `delivered, `faults
      ensures faults == old(faults) + (if !r.StreamFailed? then [] else if r.lost then [Loss] else [Failure])
      ensures old(log) <= log && delivered == if r.Got? then r.index + 1 else old(delivered)
      ensures r.Got? ==> Quiet(log, old(delivered), r.index) && r.index < seenAt <= |log| && r.event == log[r.index] &&
                         (r.event.Put? || r.event.Drop?) && r.found == BodyAt(log, seenAt, r.event.name)
      ensures r.Got? ==> Quiet(log, r.index + 1, r.token)
      ensures r.Ended? ==> Quiet(log, old(delivered), stop) && stop < |log| && log[stop].Invalidate?
    {
      var i := delivered;
      seenAt, stop := 0, 0;
      while i < |log| && log[i] == Elsewhere
        invariant delivered <= i <= |log| && Quiet(log, delivered, i)
      {
        i := i + 1;
      }
      if i == |log| {
        faults := faults + [Failure];
        return StreamFailed(false), seenAt, stop;
      }
      if log[i].Invalidate? { return Ended, seenAt, i; }
      seenAt := |log|;
      r, delivered := Got(log[i], BodyAt(log, |log|, log[i].name), i, i + 1), i + 1;
    }
  }

  /** How a run ends; Stopped is a cancellation after the given number of turns. */
  datatype Outcome = AlreadyRunning | Cancelled | ResumeLost | Failed | StreamInvalidated | Stopped

  /** One error was raised, one that says the position is lost or another. */
  predicate IsError(before: seq<Fault>, after: seq<Fault>)
  {
    after == before + [Failure] || after == before + [Loss]
  }

  /** One fault was raised by a call of the deployment or by the caller. */
  predicate IsFault(before: seq<Fault>, after: seq<Fault>)
  {
    IsError(before, after) || after == before + [Refused]
  }

  /** How an attempt ends on a fault. */
  function OutcomeOf(f: Fault): Outcome
  {
    match f
    case Failure => Failed
    case Loss => ResumeLost
    case _ => Cancelled
  }

  /** The faults raised during one attempt, by its outcome: none without a reason, and at most one. */
  function FaultsOf(outcome: Outcome): seq<Fault>
  {
    match outcome
    case Failed => [Failure]
    case ResumeLost => [Loss]
    case Cancelled => [Refused]
    case _ => []
  }

  /**
   The faults raised during a run, by its outcome. A lost position is retried once,
   unless the context was found cancelled.
   */
  predicate RunFaults(before: seq<Fault>, after: seq<Fault>, outcome: Outcome)
  {
    || (after == before + FaultsOf(outcome) && outcome != ResumeLost)
    || (after == before + [Loss, Done] && outcome == ResumeLost)
    || after == before + ([Loss] + FaultsOf(outcome))
  }

  /** The position was lost and a second attempt made. */
  predicate Retried(before: seq<Fault>, after: seq<Fault>)
  {
    before + [Loss] <= after && !(before + [Loss, Done] <= after)
  }

  /** staleNames. */
  method StaleNames(live: set<Name>, active: set<Name>) returns (stale: seq<Name>)
    ensures (set n | n in stale) == live - active
    ensures forall i, j :: 0 <= i < j < |stale| ==> stale[i] != stale[j]
  {
    stale := [];
    var todo := live;
    while todo != {}
      invariant todo <= live && forall n :: n in stale <==> n in live && n !in todo && n !in active
      invariant forall i, j :: 0 <= i < j < |stale| ==> stale[i] != stale[j]
      decreases todo
    {
      var n :| n in todo;
      assert n !in stale;
      if n !in active { stale := stale + [n]; }
      todo := todo - {n};
    }
  }

  /** The ghost field s is the protocol state the object stands for. */
  class FilterCDC {
    const world: World
    var running: bool
    var resumeToken: Option<nat>
    var resumeTime: Option<nat>
    var live: set<Name>
    ghost var s: State

    ghost predicate Valid()
      reads this, world
    {
      && Reachable(s) && s.log <= world.log && s.sent == world.inbox
      && s.token == resumeToken && s.time == resumeTime && s.live == live
    }

    /** Valid and up to date with the log. */
    ghost predicate Current()
      reads this, world
    {
      Valid() && s.log == world.log
    }

    constructor (world: World)
      requires world.inbox == []
      ensures Valid() && this.world == world && s.phase == Idle && !running
    {
      this.world := world;
      running, resumeToken, resumeTime, live := false, None, None, {};
      s := START;
      new;
      StartIsReachable();
    }

    /** Writes that arrived meanwhile. */
    ghost method Observe()
      requires Valid()
      modifies `s
      ensures Current() && s == old(s).(log := world.log)
    {
      ReachableWrites(s, world.log);
      s := s.(log := world.log);
    }

    ghost method Take(step: Step, s': State)
      requires Current() && Next(s, step, s')
      modifies `s
      ensures Reachable(s) && s == s'
    {
      ReachableStep(s, step, s');
      s := s';
    }

    /** An error return: the position, if any, is kept. */
    ghost method GiveUp()
      requires Valid()
      modifies `s
      ensures Current() && s.phase == Idle && s == old(s).(log := world.log, phase := Idle)
    {
      Observe();
      Take(Fail, s.(phase := Idle));
    }

    /** chanSend followed by track: both happen or neither. */
    method SendAndTrack(c: Change) returns (ok: bool)
      requires Valid()
      modifies world`log, world`inbox, world`faults, `live
      ensures old(world.log) <= world.log && world.inbox == old(world.inbox) + (if ok then [c] else [])
      ensures world.faults == old(world.faults) + (if ok then [] else [Refused])
      ensures live == if ok then Track(old(live), c) else old(live)
    {
      ok := world.Send(c);
      if ok {
        match c
        case Upsert(n, _) => live := live + {n};
        case Delete(n) => live := live - {n};
        case Ready =>
      }
    }

    method ForgetPosition()
      modifies `resumeToken, `resumeTime
      ensures resumeToken == None && resumeTime == None
    {
      resumeToken, resumeTime := None, None;
    }

    /** rememberPosition: a missing token changes nothing. */
    method RememberPosition(token: Option<nat>)
      modifies `resumeToken
      ensures resumeToken == if token.Some? then token else old(resumeToken)
    {
      if token.Some? { resumeToken := token; }
    }

    /** snapshot: on success the caller holds exactly the listed documents. */
    method Snapshot() returns (ok: bool)
      requires Current() && s.phase.Listing?
      modifies world`log, world`inbox, world`faults, `live, `s
      ensures Current() && old(world.log) <= world.log && old(world.inbox) <= world.inbox
      ensures ok ==> s.phase.Reconciling? && s.phase.stale == {} && s.phase.pin == old(s.phase.pin)
      ensures !ok ==> s.phase == Idle
      ensures if ok then world.faults == old(world.faults) else IsFault(old(world.faults), world.faults)
      ensures s.Position() == old(s).Position()
    {
      var docs := world.ListActive();
      if docs.None? { GiveUp(); return false; }
      ghost var listed := DocsOf(docs.value);
      ReachableInv(s);
      ReadLater(world.log, s.phase.pin, |s.log|, listed);
      Observe();
      Take(List(listed), s.(phase := Sending(s.phase.pin, listed, listed.Keys)));
      ok := SendDocs(docs.value);
      if !ok { return; }
      var active := NamesListed(docs.value);
      var stale := StaleNames(live, active);
      Take(StartReconcile, s.(phase := Reconciling(s.phase.pin, s.phase.docs, s.live - s.phase.docs.Keys)));
      ok := SendStales(stale);
    }

    static lemma ReadLater(log: seq<Event>, pin: nat, k: nat, docs: map<Name, Document>)
      requires pin <= k && ReadSometime(log, k, docs)
      ensures ReadSometime(log, pin, docs)
    {
      forall n ensures NameRead(log, pin, n, Get(docs, n)) { assert NameRead(log, k, n, Get(docs, n)); }
    }

    static method NamesListed(docs: seq<Listed>) returns (active: set<Name>)
      ensures active == DocsOf(docs).Keys
    {
      active := {};
      for i := 0 to |docs|
        invariant active == DocsOf(docs[..i]).Keys
      {
        assert docs[..i + 1][..i] == docs[..i];
        active := active + {docs[i].name};
      }
      assert docs[..|docs|] == docs;
    }

    method SendDocs(docs: seq<Listed>) returns (ok: bool)
      requires Current() && s.phase.Sending? && DistinctDocs(docs) && s.phase.docs == DocsOf(docs)
      requires s.phase.left == DocsOf(docs).Keys
      modifies world`log, world`inbox, world`faults, `live, `s
      ensures Current() && old(world.log) <= world.log && old(world.inbox) <= world.inbox
      ensures ok ==> s.phase == old(s.phase).(left := {})
      ensures !ok ==> s.phase == Idle
      ensures world.faults == old(world.faults) + (if ok then [] else [Refused]) && s.Position() == old(s).Position()
    {
      AllNames(docs);
      for i := 0 to |docs|
        invariant Current() && old(world.log) <= world.log && old(world.inbox) <= world.inbox
        invariant s.phase == old(s.phase).(left := NamesFrom(docs, i))
        invariant world.faults == old(world.faults) && s.Position() == old(s).Position()
      {
        DocsOfAt(docs, i);
        NamesFromStep(docs, i);
        ok := SendAndTrack(Upsert(docs[i].name, docs[i].doc));
        if !ok { GiveUp(); return; }
        ObserveAndTake(SendDoc(docs[i].name), Upsert(docs[i].name, docs[i].doc),
                       s.phase.(left := s.phase.left - {docs[i].name}));
      }
      ok := true;
    }

    /** After a successful send: the writes that arrived, then the step with its change. */
    ghost method ObserveAndTake(step: Step, c: Change, phase: Phase)
      requires Reachable(s) && s.log <= world.log && world.inbox == s.sent + [c] && live == Track(s.live, c)
      requires s.token == resumeToken && s.time == resumeTime
      requires Next(s.(log := world.log), step, s.(log := world.log).Tell(c).(phase := phase))
      modifies `s
      ensures Current() && s == old(s).(log := world.log).Tell(c).(phase := phase)
    {
      ReachableWrites(s, world.log);
      var t := s.(log := world.log);
      ReachableStep(t, step, t.Tell(c).(phase := phase));
      s := t.Tell(c).(phase := phase);
    }

    static ghost function NamesFrom(docs: seq<Listed>, i: nat): set<Name>
    {
      set j | i <= j < |docs| :: docs[j].name
    }

    static lemma AllNames(docs: seq<Listed>)
      ensures NamesFrom(docs, 0) == DocsOf(docs).Keys
    {
      DocsOfKeys(docs);
    }

    static lemma NamesFromStep(docs: seq<Listed>, i: nat)
      requires DistinctDocs(docs) && i < |docs|
      ensures docs[i].name in NamesFrom(docs, i) && NamesFrom(docs, i + 1) == NamesFrom(docs, i) - {docs[i].name}
    {
    }

    method SendStales(stale: seq<Name>) returns (ok: bool)
      requires Current() && s.phase.Reconciling? && s.phase.stale == set n | n in stale
      requires forall i, j :: 0 <= i < j < |stale| ==> stale[i] != stale[j]
      modifies world`log, world`inbox, world`faults, `live, `s
      ensures Current() && old(world.log) <= world.log && old(world.inbox) <= world.inbox
      ensures ok ==> s.phase == old(s.phase).(stale := {})
      ensures !ok ==> s.phase == Idle
      ensures world.faults == old(world.faults) + (if ok then [] else [Refused]) && s.Position() == old(s).Position()
    {
      for i := 0 to |stale|
        invariant Current() && old(world.log) <= world.log && old(world.inbox) <= world.inbox
        invariant s.phase == old(s.phase).(stale := set n | n in stale[i..])
        invariant world.faults == old(world.faults) && s.Position() == old(s).Position()
      {
        assert stale[i..] == [stale[i]] + stale[i + 1..] && stale[i] !in stale[i + 1..];
        ok := SendAndTrack(Delete(stale[i]));
        if !ok { GiveUp(); return; }
        ObserveAndTake(SendStale(stale[i]), Delete(stale[i]), s.phase.(stale := s.phase.stale - {stale[i]}));
      }
      ok := true;
    }

    /** The position to start the stream at, pinning and snapshotting when none is held. */
    method Prepare() returns (pos: Option<nat>)
      requires Valid() && s.phase == Idle
      modifies this, world
      ensures Current() && old(world.log) <= world.log && old(world.inbox) <= world.inbox && running == old(running)
      ensures pos.Some? ==> s.phase == Opening && s.Position() == pos
      ensures pos.None? ==> s.phase == Idle
      ensures old(s).Position().Some? ==> pos == old(s).Position() && world.inbox == old(world.inbox)
      ensures if pos.Some? then world.faults == old(world.faults) else IsFault(old(world.faults), world.faults)
      ensures if old(s).Position().Some? then world.pins == old(world.pins)
              else |world.pins| == |old(world.pins)| + 1 && old(world.pins) <= world.pins
      ensures old(s).Position().None? && pos.Some? ==> s.time == pos == world.pins[|old(world.pins)|]
      ensures pos.None? ==> s.Position() == None
    {
      Observe();
      if resumeToken.Some? || resumeTime.Some? {
        Take(Resume, s.(phase := Opening));
        return if resumeToken.Some? then resumeToken else resumeTime;
      }
      var t := world.CurrentOpTime();
      Observe();
      if t.None? { return None; }
      Take(Pin(t.value), s.(phase := Listing(t.value)));
      var ok := Snapshot();
      if !ok { return None; }
      ReachableInv(s);
      resumeTime := t;
      Take2(SnapshotDone, s.(time := t, phase := Opening));
      return t;
    }

    /** A step whose effect on the fields has already been made. */
    ghost method Take2(step: Step, s': State)
      requires Reachable(s) && s.log == world.log && Next(s, step, s') && s'.log == s.log
      requires s'.sent == world.inbox && s'.token == resumeToken && s'.time == resumeTime && s'.live == live
      modifies `s
      ensures Current() && s == s'
    {
      ReachableStep(s, step, s');
      s := s';
    }

    /** runOnce, following the stream for at most the given number of turns. */
    method RunOnce(turns: nat) returns (outcome: Outcome)
      requires Valid() && s.phase == Idle
      modifies this, world
      ensures Valid() && s.phase == Idle && old(world.log) <= world.log && old(world.inbox) <= world.inbox
      ensures running == old(running)
      ensures outcome != AlreadyRunning && (outcome == StreamInvalidated ==> s.Position() == None)
      ensures outcome == Stopped || outcome == StreamInvalidated ==> Announced(old(world.inbox), world.inbox)
      ensures outcome == Stopped ==>
              s.Position().Some? && s.Position().value >= turns && s.Position().value >= world.delivered
      ensures world.faults == old(world.faults) + FaultsOf(outcome)
      ensures if old(s).Position().Some? then world.pins == old(world.pins)
              else |world.pins| == |old(world.pins)| + 1 && old(world.pins) <= world.pins
      ensures old(s).Position().Some? ==> (s.Position() == None <==> outcome == StreamInvalidated)
      ensures old(s).Position().None? && s.Position().Some? ==> s.time == world.pins[|old(world.pins)|]
    {
      var pos := Prepare();
      if pos.None? {
        var f := world.LastFault();
        return OutcomeOf(f);
      }
      ghost var sent := world.inbox;
      outcome := Follow(pos.value, turns);
      if Announced(sent, world.inbox) { AnnouncedSince(old(world.inbox), sent, world.inbox); }
    }

    /** Opens the stream and remembers its first token. */
    method OpenStream(pos: nat) returns (end: Option<Outcome>)
      requires Current() && s.phase == Opening && s.Position() == Some(pos)
      modifies world`log, world`delivered, world`faults, `resumeToken, `s
      ensures Current() && old(world.log) <= world.log && s.time == old(s).time && s.Position().Some?
      ensures end.None? ==> s.phase == Open(pos) && world.delivered == pos <= s.Position().value
      ensures end.Some? ==> s.phase == Idle && (end.value == ResumeLost || end.value == Failed)
      ensures world.faults == old(world.faults) + (if end.Some? then FaultsOf(end.value) else [])
    {
      ReachableInv(s);
      var r := world.Watch(pos);
      if r.WatchFailed? {
        GiveUp();
        return Some(if r.lost then ResumeLost else Failed);
      }
      Observe();
      RememberPosition(r.token);
      Take2(Step.Watch(r.token), s.(token := resumeToken, phase := Open(pos)));
      return None;
    }

    /** Opens the stream, announces Ready and tails. */
    method Follow(pos: nat, turns: nat) returns (outcome: Outcome)
      requires Current() && s.phase == Opening && s.Position() == Some(pos)
      modifies this, world
      ensures Current() && s.phase == Idle && old(world.log) <= world.log && old(world.inbox) <= world.inbox
      ensures running == old(running)
      ensures outcome != AlreadyRunning && (outcome == StreamInvalidated <==> s.Position() == None)
      ensures outcome == Stopped || outcome == StreamInvalidated ==> Announced(old(world.inbox), world.inbox)
      ensures outcome == Stopped ==>
              s.Position().Some? && s.Position().value >= turns && s.Position().value >= world.delivered
      ensures world.faults == old(world.faults) + FaultsOf(outcome) && world.pins == old(world.pins)
      ensures s.Position().Some? ==> s.time == old(s).time
    {
      var end := OpenStream(pos);
      if end.Some? { return end.value; }
      var ok := Announce();
      if !ok { return Cancelled; }
      ghost var sent := world.inbox;
      outcome := Tail(pos, turns);
      AnnouncedMore(old(world.inbox), sent, world.inbox);
    }

    method Announce() returns (ok: bool)
      requires Current() && s.phase.Open?
      modifies world`log, world`inbox, world`faults, `live, `s
      ensures Current() && old(world.log) <= world.log
      ensures if ok then s.phase == Tailing(old(s).phase.at) && world.inbox == old(world.inbox) + [Ready]
              else s.phase == Idle && world.inbox == old(world.inbox)
      ensures s.Position() == old(s).Position() && s.time == old(s).time
      ensures world.faults == old(world.faults) + (if ok then [] else [Refused])
    {
      ok := SendAndTrack(Ready);
      if !ok { GiveUp(); return; }
      ObserveAndTake(SendReady, Ready, Tailing(s.phase.at));
    }

    /** Ready was among the changes sent since. */
    static ghost predicate Announced(before: seq<Change>, after: seq<Change>)
    {
      before <= after && Ready in after[|before|..]
    }

    static lemma AnnouncedMore(before: seq<Change>, sent: seq<Change>, after: seq<Change>)
      requires sent == before + [Ready] && sent <= after
      ensures Announced(before, after)
    {
      assert after[|before|..][0] == Ready;
    }

    static lemma AnnouncedSince(first: seq<Change>, before: seq<Change>, after: seq<Change>)
      requires first <= before && Announced(before, after)
      ensures Announced(first, after)
    {
      var i :| |before| <= i < |after| && after[i] == Ready;
      assert after[|first|..][i - |first|] == Ready;
    }

    /** The loop over cs.Next. */
    method Tail(start: nat, turns: nat) returns (outcome: Outcome)
      requires Current() && s.phase == Tailing(start) && s.Position().Some?
      requires world.delivered == start <= s.Position().value
      modifies this, world
      ensures Current() && s.phase == Idle && old(world.log) <= world.log && old(world.inbox) <= world.inbox
      ensures running == old(running)
      ensures outcome != AlreadyRunning && (outcome == StreamInvalidated <==> s.Position() == None)
      ensures outcome == Stopped ==> s.Position().value >= turns
      ensures outcome != Cancelled && s.Position().Some? ==> s.Position().value >= world.delivered
      ensures world.faults == old(world.faults) + FaultsOf(outcome) && world.pins == old(world.pins)
      ensures s.Position().Some? ==> s.time == old(s).time
    {
      var at: nat := start;
      for turn := 0 to turns
        invariant Current() && s.phase == Tailing(at) && running == old(running)
        invariant s.Position().Some? && s.Position().value >= turn && at >= turn
        invariant world.delivered == at <= s.Position().value
        invariant old(world.log) <= world.log && old(world.inbox) <= world.inbox
        invariant world.faults == old(world.faults) && world.pins == old(world.pins) && s.time == old(s).time
      {
        var end, next := Turn(at);
        if end.Some? { return end.value; }
        at := next;
      }
      GiveUp();
      return Stopped;
    }

    /**
     One turn of the loop: either it ends, or the next event has been handled and the
     position stands behind it, with no event of the collection in between.
     */
    method Turn(at: nat) returns (end: Option<Outcome>, next: nat)
      requires Current() && s.phase == Tailing(at) && s.Position().Some?
      requires world.delivered == at <= s.Position().value
      modifies world, `live, `resumeToken, `resumeTime, `s
      ensures Current() && old(world.log) <= world.log && old(world.inbox) <= world.inbox
      ensures end.None? ==> s.phase == Tailing(next) && at < next == world.delivered
      ensures end.None? ==> s.Position().Some? && Quiet(s.log, next, s.Position().value)
      ensures end.Some? ==>
              && s.phase == Idle && end.value !in {AlreadyRunning, Stopped}
              && (end == Some(StreamInvalidated) <==> s.Position() == None)
      ensures end.Some? && end != Some(Cancelled) && s.Position().Some? ==> s.Position().value >= world.delivered
      ensures world.faults == old(world.faults) + (if end.Some? then FaultsOf(end.value) else [])
      ensures world.pins == old(world.pins) && (s.Position().Some? ==> s.time == old(s).time)
    {
      ReachableInv(s);
      next := at;
      var r, seenAt, stop := world.Next();
      match r {
        case StreamFailed(lost) =>
          GiveUp();
          return Some(if lost then ResumeLost else Failed), at;
        case Ended =>
          EndStream(stop);
          return Some(StreamInvalidated), at;
        case Got(event, found, index, token) =>
          Observe();
          PassTo(index);
          var ok := HandleEvent(event, found, index, token, seenAt);
          if !ok { return Some(Cancelled), at; }
          return None, index + 1;
      }
    }

    /** The collection was dropped or renamed: the position is forgotten. */
    method EndStream(ghost stop: nat)
      requires Valid() && s.phase.Tailing? && Quiet(world.log, s.phase.at, stop)
      requires stop < |world.log| && world.log[stop].Invalidate?
      modifies `resumeToken, `resumeTime, `s
      ensures Current() && s.phase == Idle && s.Position() == None
    {
      Observe();
      PassTo(stop);
      ForgetPosition();
      Take2(Invalidated, s.Forget().(phase := Idle));
    }

    /** The stream passes by writes to other collections. */
    ghost method PassTo(end: nat)
      requires Current() && s.phase.Tailing? && Quiet(s.log, s.phase.at, end)
      modifies `s
      ensures Current() && s == old(s).(phase := Tailing(end))
    {
      ReachablePassBy(s, end);
      s := s.(phase := Tailing(end));
    }

    /** One turn: decode, send, track, and only then remember the position. */
    method HandleEvent(event: Event, found: Option<Body>, index: nat, token: nat, ghost seenAt: nat) returns (ok: bool)
      requires Current() && s.phase == Tailing(index) && index < seenAt <= |s.log| && s.log[index] == event
      requires (event.Put? || event.Drop?) && found == BodyAt(s.log, seenAt, event.name)
      requires Quiet(s.log, index + 1, token)
      modifies world`log, world`inbox, world`faults, `live, `resumeToken, `s
      ensures Current() && old(world.log) <= world.log && old(world.inbox) <= world.inbox
      ensures if ok then s.phase == Tailing(index + 1) && s.Position() == Some(token)
              else s.phase == Idle && s.Position() == old(s).Position()
      ensures world.faults == old(world.faults) + (if ok then [] else [Refused]) && s.time == old(s).time
    {
      var c := DecodeEvent(event, found);
      ghost var handled := Handled(s, index, seenAt, token);
      ReachableStep(s, Handle(seenAt, token), handled);
      if c.Some? {
        ok := SendAndTrack(c.value);
        if !ok { GiveUp(); return; }
      }
      RememberPosition(Some(token));
      s := handled;
      Observe();
      ok := true;
    }

    /** The second attempt: the position is forgotten, so it snapshots again. */
    method Retry(turns: nat) returns (outcome: Outcome)
      requires Valid() && s.phase == Idle
      modifies this, world
      ensures Valid() && s.phase == Idle && old(world.log) <= world.log && old(world.inbox) <= world.inbox
      ensures running == old(running)
      ensures outcome != AlreadyRunning && (outcome == StreamInvalidated ==> s.Position() == None)
      ensures outcome == Stopped || outcome == StreamInvalidated ==> Announced(old(world.inbox), world.inbox)
      ensures outcome == Stopped ==>
              s.Position().Some? && s.Position().value >= turns && s.Position().value >= world.delivered
      ensures world.faults == old(world.faults) + FaultsOf(outcome)
      ensures |world.pins| == |old(world.pins)| + 1
      ensures s.Position().Some? ==> s.time == world.pins[|old(world.pins)|]
    {
      Observe();
      ForgetPosition();
      Take2(Lost, s.Forget().(phase := Idle));
      outcome := RunOnce(turns);
    }

    static lemma OneAttempt(before: seq<Fault>, outcome: Outcome)
      requires outcome != ResumeLost
      ensures RunFaults(before, before + FaultsOf(outcome), outcome) && !Retried(before, before + FaultsOf(outcome))
    {
      var after := before + FaultsOf(outcome);
      assert FaultsOf(outcome) != [] ==> after[|before|] == FaultsOf(outcome)[0] != (before + [Loss])[|before|];
    }

    static lemma LostAndCancelled(before: seq<Fault>)
      ensures RunFaults(before, before + [Loss] + [Done], ResumeLost) && !Retried(before, before + [Loss] + [Done])
    {
      assert before + [Loss] + [Done] == before + [Loss, Done];
    }

    static lemma TwoAttempts(before: seq<Fault>, outcome: Outcome)
      ensures RunFaults(before, before + [Loss] + FaultsOf(outcome), outcome)
      ensures Retried(before, before + [Loss] + FaultsOf(outcome))
    {
      var after := before + [Loss] + FaultsOf(outcome);
      assert after == before + ([Loss] + FaultsOf(outcome));
      assert after[..|before| + 1] == before + [Loss];
      var done := before + [Loss, Done];
      assert FaultsOf(outcome) != [] ==> after[|before| + 1] == FaultsOf(outcome)[0] != done[|before| + 1];
    }

    /** The attempts of a run. */
    method Attempts(turns: nat) returns (outcome: Outcome)
      requires Valid() && s.phase == Idle
      modifies this, world
      ensures Valid() && s.phase == Idle && old(world.log) <= world.log && old(world.inbox) <= world.inbox
      ensures running == old(running) && outcome != AlreadyRunning
      ensures outcome == Stopped || outcome == StreamInvalidated ==> Announced(old(world.inbox), world.inbox)
      ensures outcome == Stopped ==>
              s.Position().Some? && s.Position().value >= turns && s.Position().value >= world.delivered
      ensures outcome == StreamInvalidated ==> s.Position() == None
      ensures RunFaults(old(world.faults), world.faults, outcome)
      ensures PinsMade(old(s), old(world.faults), old(world.pins))
      ensures old(s).Position().Some? && !Retried(old(world.faults), world.faults) ==>
              (s.Position() == None <==> outcome == StreamInvalidated)
    {
      outcome := RunOnce(turns);
      if outcome != ResumeLost {
        OneAttempt(old(world.faults), outcome);
        return;
      }
      var cancelled := world.IsCancelled();
      if cancelled {
        LostAndCancelled(old(world.faults));
        return;
      }
      ghost var sent := world.inbox;
      outcome := Retry(turns);
      TwoAttempts(old(world.faults), outcome);
      if Announced(sent, world.inbox) { AnnouncedSince(old(world.inbox), sent, world.inbox); }
    }

    /**
     One hello for each attempt that held no position, and a second attempt holds
     none: what position there is afterwards was pinned by its own hello.
     */
    ghost predicate PinsMade(start: State, faults: seq<Fault>, pins: seq<Option<nat>>)
      reads this, world
    {
      && |world.pins| == |pins| + (if start.Position().None? then 1 else 0)
                                + (if Retried(faults, world.faults) then 1 else 0)
      && (Retried(faults, world.faults) && s.Position().Some? ==> s.time == world.pins[|world.pins| - 1])
    }

    /**
     Run: rejected while running; a lost position is forgotten and retried once. It
     fails only on faults of the deployment or the caller, in the way RunFaults says.
     */
    method Run(turns: nat) returns (outcome: Outcome)
      requires Valid() && (!running ==> s.phase == Idle)
      modifies this, world
      ensures Valid() && old(world.log) <= world.log && old(world.inbox) <= world.inbox && running == old(running)
      ensures old(running) <==> outcome == AlreadyRunning
      ensures old(running) ==> unchanged(this) && unchanged(world)
      ensures !running ==> s.phase == Idle
      ensures outcome == Stopped || outcome == StreamInvalidated ==> Announced(old(world.inbox), world.inbox)
      ensures outcome == Stopped ==>
              s.Position().Some? && s.Position().value >= turns && s.Position().value >= world.delivered
      ensures outcome == StreamInvalidated ==> s.Position() == None
      ensures live == Told(world.inbox).Keys
      ensures s.Position().Some? ==> Agrees(s.log, s.Position().value, Told(world.inbox))
      ensures !running ==> RunFaults(old(world.faults), world.faults, outcome)
      ensures !running ==> PinsMade(old(s), old(world.faults), old(world.pins))
      ensures !running && old(s).Position().Some? && !Retried(old(world.faults), world.faults) ==>
              (s.Position() == None <==> outcome == StreamInvalidated)
    {
      if running {
        ReachableInv(s);
        return AlreadyRunning;
      }
      running := true;
      outcome := Attempts(turns);
      running := false;
      ReachableInv(s);
    }
  }
}
