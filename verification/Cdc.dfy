/**
 The change-data-capture protocol of cloudevent/cefilter/mongostore/cdc.go as a
 state machine: the collection and its log are the environment, and every step
 of FilterCDC may be delayed, may see later writes, or may fail.
 */
module Cdc {
  import opened Wrappers

  type Name = string

  /** FilterDocument without its key; deleted says that deletedAt is set. */
  datatype Document = Document(hint: string, metadata: map<string, string>, expr: string, deleted: bool)

  /** What is stored under a key: a document, or one that does not decode. */
  datatype Body = Readable(doc: Document) | Unreadable(deleted: bool, mendable: bool)

  /**
   The log. A Put by update carries no document, its reader looks the document
   up later. Elsewhere is a write to another collection. Invalidate drops or
   renames the collection and leaves the given documents under its name.
   */
  datatype Event =
    | Put(name: Name, body: Body, lookup: bool)
    | Drop(name: Name)
    | Elsewhere
    | Invalidate(docs: map<Name, Body>)

  datatype Change = Upsert(name: Name, doc: Document) | Delete(name: Name) | Ready

  function Get<V>(m: map<Name, V>, n: Name): Option<V>
  {
    if n in m then Some(m[n]) else None
  }

  // ----- the collection, read at a position of the log -----

  predicate Touches(e: Event, n: Name)
  {
    e.Invalidate? || ((e.Put? || e.Drop?) && e.name == n)
  }

  function BodyAt(log: seq<Event>, k: nat, n: Name): Option<Body>
    requires k <= |log|
  {
    if k == 0 then None
    else if !Touches(log[k - 1], n) then BodyAt(log, k - 1, n)
    else match log[k - 1]
      case Put(_, body, _) => Some(body)
      case Invalidate(docs) => Get(docs, n)
      case _ => None
  }

  function ActiveBody(b: Option<Body>): Option<Document>
  {
    if b.Some? && b.value.Readable? && !b.value.doc.deleted then Some(b.value.doc) else None
  }

  /** The active document of a name, if it has one that decodes. */
  function ActiveAt(log: seq<Event>, k: nat, n: Name): Option<Document>
    requires k <= |log|
  {
    ActiveBody(BodyAt(log, k, n))
  }

  function ActiveNow(log: seq<Event>, n: Name): Option<Document>
  {
    ActiveAt(log, |log|, n)
  }

  /** No write to n from position k on. */
  ghost predicate Untouched(log: seq<Event>, k: nat, n: Name)
  {
    forall i :: k <= i < |log| ==> !Touches(log[i], n)
  }

  /** The last write to n is one that decodeEvent can report. */
  predicate Legible(log: seq<Event>, k: nat, n: Name)
    requires k <= |log|
  {
    if k == 0 then true
    else if !Touches(log[k - 1], n) then Legible(log, k - 1, n)
    else match log[k - 1]
      case Put(_, body, _) => body.Readable?
      case Drop(_) => n != ""
      case _ => true
  }

  lemma {:induction false} BodyOfPrefix(log: seq<Event>, e: Event, k: nat, n: Name)
    requires k <= |log|
    ensures BodyAt(log + [e], k, n) == BodyAt(log, k, n) && Legible(log + [e], k, n) == Legible(log, k, n)
  {
    if k > 0 { BodyOfPrefix(log, e, k - 1, n); }
  }

  lemma {:induction false} UntouchedKeepsBody(log: seq<Event>, k: nat, n: Name, m: nat)
    requires k <= m <= |log| && Untouched(log, k, n)
    ensures BodyAt(log, m, n) == BodyAt(log, k, n) && Legible(log, m, n) == Legible(log, k, n)
  {
    if k < m { UntouchedKeepsBody(log, k, n, m - 1); }
  }

  /** A name whose last write is illegible has no active document that decodes. */
  lemma {:induction false} IllegibleIsInactive(log: seq<Event>, k: nat, n: Name)
    requires k <= |log| && !Legible(log, k, n)
    ensures ActiveAt(log, k, n) == None
  {
    if !Touches(log[k - 1], n) { IllegibleIsInactive(log, k - 1, n); }
  }

  // ----- what the caller has been told -----

  /** What a change does to the caller's set. */
  function Applied(caller: map<Name, Document>, c: Change): map<Name, Document>
  {
    match c
    case Upsert(n, doc) => caller[n := doc]
    case Delete(n) => caller - {n}
    case Ready => caller
  }

  /** The caller's set after the changes received so far. */
  function Told(sent: seq<Change>): map<Name, Document>
  {
    if sent == [] then map[] else Applied(Told(sent[..|sent| - 1]), sent[|sent| - 1])
  }

  lemma ToldSnoc(sent: seq<Change>, c: Change)
    ensures Told(sent + [c]) == Applied(Told(sent), c)
  {
    assert (sent + [c])[..|sent|] == sent;
  }

  /** track. */
  function Track(live: set<Name>, c: Change): set<Name>
  {
    match c
    case Upsert(n, _) => live + {n}
    case Delete(n) => live - {n}
    case Ready => live
  }

  /** decodeEvent, with the document found by the late lookup; None stands for the errors, which are skipped. */
  function DecodeEvent(e: Event, found: Option<Body>): Option<Change>
  {
    match e
    case Put(n, body, lookup) =>
      var full := if lookup then found else Some(body);
      if full.None? || full.value.Unreadable? then None
      else if full.value.doc.deleted then Some(Delete(n))
      else Some(Upsert(n, full.value.doc))
    case Drop(n) => if n == "" then None else Some(Delete(n))
    case _ => None
  }

  // ----- the state machine -----

  datatype Phase =
    | Idle
    | Listing(pin: nat)
    | Sending(pin: nat, docs: map<Name, Document>, left: set<Name>)
    | Reconciling(pin: nat, docs: map<Name, Document>, stale: set<Name>)
    | Opening
    | Open(at: nat)
    | Tailing(at: nat)

  datatype State =
    State(log: seq<Event>, token: Option<nat>, time: Option<nat>, live: set<Name>, sent: seq<Change>, phase: Phase)
  {
    /** The resume position: the last token, or else the time the snapshot was pinned at. */
    function Position(): Option<nat>
    {
      if token.Some? then token else time
    }

    /** A change received by the caller and recorded by track. */
    function Tell(c: Change): State
    {
      this.(sent := sent + [c], live := Track(live, c))
    }

    function Forget(): State
    {
      this.(token := None, time := None)
    }
  }

  const START := State([], None, None, {}, [], Idle)

  /** One document of a snapshot read at position k; an active document that does not decode fails the read. */
  predicate ListedAt(log: seq<Event>, k: nat, n: Name, listed: Option<Document>)
    requires k <= |log|
  {
    var b := BodyAt(log, k, n);
    !(b.Some? && b.value.Unreadable? && !b.value.deleted) && listed == ActiveBody(b)
  }

  /** The snapshot is not atomic: each name is read at some position after the pin. */
  ghost predicate ReadSometime(log: seq<Event>, pin: nat, docs: map<Name, Document>)
  {
    forall n :: NameRead(log, pin, n, Get(docs, n))
  }

  ghost predicate NameRead(log: seq<Event>, pin: nat, n: Name, listed: Option<Document>)
  {
    exists k :: pin <= k <= |log| && ListedAt(log, k, n, listed)
  }

  /** Only writes to other collections in log[i..j]. */
  ghost predicate Quiet(log: seq<Event>, i: nat, j: nat)
  {
    i <= j <= |log| && forall k :: i <= k < j ==> log[k] == Elsewhere
  }

  datatype Step =
    | Write(e: Event)
    | Resume
    | Pin(pin: nat)
    | List(docs: map<Name, Document>)
    | SendDoc(n: Name)
    | StartReconcile
    | SendStale(n: Name)
    | SnapshotDone
    | Watch(token: Option<nat>)
    | SendReady
    | PassBy
    | Handle(seenAt: nat, behind: nat)
    | Invalidated
    | Fail
    | Lost

  ghost predicate Next(s: State, step: Step, s': State)
  {
    match step
    case Write(e) => s' == s.(log := s.log + [e])
    case Resume => s.phase == Idle && s.Position().Some? && s' == s.(phase := Opening)
    case Pin(pin) => s.phase == Idle && s.Position().None? && pin <= |s.log| && s' == s.(phase := Listing(pin))
    case List(docs) =>
      && s.phase.Listing? && ReadSometime(s.log, s.phase.pin, docs)
      && s' == s.(phase := Sending(s.phase.pin, docs, docs.Keys))
    case SendDoc(n) =>
      && s.phase.Sending? && n in s.phase.left && n in s.phase.docs
      && s' == s.Tell(Upsert(n, s.phase.docs[n])).(phase := s.phase.(left := s.phase.left - {n}))
    case StartReconcile =>
      && s.phase.Sending? && s.phase.left == {}
      && s' == s.(phase := Reconciling(s.phase.pin, s.phase.docs, s.live - s.phase.docs.Keys))
    case SendStale(n) =>
      && s.phase.Reconciling? && n in s.phase.stale
      && s' == s.Tell(Delete(n)).(phase := s.phase.(stale := s.phase.stale - {n}))
    case SnapshotDone =>
      s.phase.Reconciling? && s.phase.stale == {} && s' == s.(time := Some(s.phase.pin), phase := Opening)
    case Watch(token) =>
      && s.phase == Opening && s.Position().Some?
      && (token.Some? ==> Quiet(s.log, s.Position().value, token.value))
      && s' == s.(token := if token.Some? then token else s.token, phase := Open(s.Position().value))
    case SendReady => s.phase.Open? && s' == s.Tell(Ready).(phase := Tailing(s.phase.at))
    case PassBy =>
      && s.phase.Tailing? && s.phase.at < |s.log| && s.log[s.phase.at] == Elsewhere
      && s' == s.(phase := Tailing(s.phase.at + 1))
    case Handle(seenAt, behind) =>
      && s.phase.Tailing? && s.phase.at < seenAt <= |s.log| && Quiet(s.log, s.phase.at + 1, behind)
      && (s.log[s.phase.at].Put? || s.log[s.phase.at].Drop?)
      && s' == Handled(s, s.phase.at, seenAt, behind)
    case Invalidated =>
      s.phase.Tailing? && s.phase.at < |s.log| && s.log[s.phase.at].Invalidate? && s' == s.Forget().(phase := Idle)
    case Fail => s' == s.(phase := Idle)
    case Lost => s' == s.Forget().(phase := Idle)
  }

  /**
   The loop body of the tail: send what the event decodes to, then remember the
   stream's token. At the end of a batch it may stand behind later writes to other
   collections.
   */
  function Handled(s: State, at: nat, seenAt: nat, token: nat): State
    requires at < seenAt <= |s.log| && (s.log[at].Put? || s.log[at].Drop?)
  {
    var c := DecodeEvent(s.log[at], BodyAt(s.log, seenAt, s.log[at].name));
    var told := if c.Some? then s.Tell(c.value) else s;
    told.(token := Some(token), phase := Tailing(at + 1))
  }

  ghost predicate IsPath(run: seq<State>, steps: seq<Step>)
  {
    |run| == |steps| + 1 && forall i :: 0 <= i < |steps| ==> Next(run[i], steps[i], run[i + 1])
  }

  ghost predicate IsRun(run: seq<State>, steps: seq<Step>)
  {
    IsPath(run, steps) && run[0] == START
  }

  ghost predicate Reachable(s: State)
  {
    exists run, steps :: IsRun(run, steps) && run[|run| - 1] == s
  }

  lemma ReachableStep(s: State, step: Step, s': State)
    requires Reachable(s) && Next(s, step, s')
    ensures Reachable(s')
  {
    var run, steps :| IsRun(run, steps) && run[|run| - 1] == s;
    assert IsRun(run + [s'], steps + [step]);
  }

  /** Any number of writes may pass. */
  lemma {:induction false} ReachableWrites(s: State, log: seq<Event>)
    requires Reachable(s) && s.log <= log
    ensures Reachable(s.(log := log))
    decreases |log| - |s.log|
  {
    if |s.log| == |log| {
      assert s.log == log && s.(log := log) == s;
    } else {
      var e := log[|s.log|];
      var t := s.(log := s.log + [e]);
      ReachableStep(s, Write(e), t);
      ReachableWrites(t, log);
    }
  }

  /** The stream passes by writes to other collections. */
  lemma {:induction false} ReachablePassBy(s: State, end: nat)
    requires Reachable(s) && s.phase.Tailing? && Quiet(s.log, s.phase.at, end)
    ensures Reachable(s.(phase := Tailing(end)))
    decreases end - s.phase.at
  {
    if s.phase.at < end {
      var t := s.(phase := Tailing(s.phase.at + 1));
      ReachableStep(s, PassBy, t);
      ReachablePassBy(t, end);
    } else {
      assert s.(phase := Tailing(end)) == s;
    }
  }

  lemma StartIsReachable()
    ensures Reachable(START)
  {
    assert IsRun([START], []);
  }

  // ----- the invariant -----

  /** The caller agrees with the collection on every name not written from pos on and legible. */
  ghost predicate Agrees(log: seq<Event>, pos: nat, caller: map<Name, Document>)
  {
    forall n :: Untouched(log, pos, n) && Legible(log, |log|, n) ==> Get(caller, n) == ActiveNow(log, n)
  }

  /** So does a snapshot, on every name not written since it was pinned. */
  ghost predicate SnapshotHolds(log: seq<Event>, pin: nat, docs: map<Name, Document>)
  {
    pin <= |log| && forall n :: Untouched(log, pin, n) ==> Get(docs, n) == ActiveNow(log, n)
  }

  /** The caller holds the listed documents of these names. */
  ghost predicate Delivered(caller: map<Name, Document>, docs: map<Name, Document>, names: set<Name>)
  {
    forall n :: n in names && n in docs ==> Get(caller, n) == Some(docs[n])
  }

  ghost predicate PhaseInv(s: State)
  {
    match s.phase
    case Idle => true
    case Listing(pin) => s.Position().None? && pin <= |s.log|
    case Sending(pin, docs, left) =>
      && s.Position().None? && SnapshotHolds(s.log, pin, docs) && left <= docs.Keys
      && Delivered(Told(s.sent), docs, docs.Keys - left)
    case Reconciling(pin, docs, stale) =>
      && s.Position().None? && SnapshotHolds(s.log, pin, docs) && stale == Told(s.sent).Keys - docs.Keys
      && Delivered(Told(s.sent), docs, docs.Keys)
    case Opening => s.Position().Some?
    case Open(at) => StreamInv(s, at)
    case Tailing(at) => StreamInv(s, at)
  }

  /** The stream stands at or around the resume position, with no event of the collection in between. */
  ghost predicate StreamInv(s: State, at: nat)
  {
    s.Position().Some? && at <= |s.log| && Agrees(s.log, at, Told(s.sent)) &&
    (Quiet(s.log, s.Position().value, at) || Quiet(s.log, at, s.Position().value))
  }

  ghost predicate Inv(s: State)
  {
    && s.live == Told(s.sent).Keys
    && (s.Position().Some? ==> s.Position().value <= |s.log| && Agrees(s.log, s.Position().value, Told(s.sent)))
    && PhaseInv(s)
  }

  lemma AgreesAfterWrite(log: seq<Event>, e: Event, pos: nat, caller: map<Name, Document>)
    requires pos <= |log| && Agrees(log, pos, caller)
    ensures Agrees(log + [e], pos, caller)
  {
    var log' := log + [e];
    forall n | Untouched(log', pos, n) && Legible(log', |log'|, n) ensures Get(caller, n) == ActiveNow(log', n) {
      assert !Touches(log'[|log|], n);
      assert Untouched(log, pos, n) by { assert forall i :: pos <= i < |log| ==> log[i] == log'[i]; }
      BodyOfPrefix(log, e, |log|, n);
    }
  }

  lemma SnapshotAfterWrite(log: seq<Event>, e: Event, pin: nat, docs: map<Name, Document>)
    requires SnapshotHolds(log, pin, docs)
    ensures SnapshotHolds(log + [e], pin, docs)
  {
    var log' := log + [e];
    forall n | Untouched(log', pin, n) ensures Get(docs, n) == ActiveNow(log', n) {
      assert !Touches(log'[|log|], n);
      assert Untouched(log, pin, n) by { assert forall i :: pin <= i < |log| ==> log[i] == log'[i]; }
      BodyOfPrefix(log, e, |log|, n);
    }
  }

  lemma SnapshotIsConsistent(log: seq<Event>, pin: nat, docs: map<Name, Document>)
    requires pin <= |log| && ReadSometime(log, pin, docs)
    ensures SnapshotHolds(log, pin, docs)
  {
    forall n | Untouched(log, pin, n) ensures Get(docs, n) == ActiveNow(log, n) {
      assert NameRead(log, pin, n, Get(docs, n));
      var k :| pin <= k <= |log| && ListedAt(log, k, n, Get(docs, n));
      UntouchedKeepsBody(log, pin, n, k);
      UntouchedKeepsBody(log, pin, n, |log|);
    }
  }

  /** Moving past writes to other collections loses nothing. */
  lemma AgreesAcrossQuiet(log: seq<Event>, i: nat, j: nat, caller: map<Name, Document>)
    requires Quiet(log, i, j)
    ensures Agrees(log, i, caller) <==> Agrees(log, j, caller)
  {
    forall n ensures Untouched(log, i, n) <==> Untouched(log, j, n) {
      if Untouched(log, j, n) {
        forall k | i <= k < |log| ensures !Touches(log[k], n) { if k < j { assert log[k] == Elsewhere; } }
      }
    }
  }

  /** What the caller holds after an event that may decode to nothing. */
  function AppliedIf(caller: map<Name, Document>, c: Option<Change>): map<Name, Document>
  {
    if c.Some? then Applied(caller, c.value) else caller
  }

  /** What the event at position at makes the caller hold under its own name. */
  lemma OwnNameAgrees(log: seq<Event>, at: nat, seenAt: nat, caller: map<Name, Document>)
    requires at < seenAt <= |log| && (log[at].Put? || log[at].Drop?)
    requires Untouched(log, at + 1, log[at].name) && Legible(log, |log|, log[at].name)
    ensures Get(AppliedIf(caller, DecodeEvent(log[at], BodyAt(log, seenAt, log[at].name))), log[at].name) ==
            ActiveNow(log, log[at].name)
  {
    UntouchedKeepsBody(log, at + 1, log[at].name, seenAt);
    UntouchedKeepsBody(log, at + 1, log[at].name, |log|);
  }

  lemma OtherNameAgrees(log: seq<Event>, at: nat, found: Option<Body>, caller: map<Name, Document>, n: Name)
    requires at < |log| && (log[at].Put? || log[at].Drop?) && n != log[at].name && Agrees(log, at, caller)
    requires Untouched(log, at + 1, n) && Legible(log, |log|, n)
    ensures Get(AppliedIf(caller, DecodeEvent(log[at], found)), n) == ActiveNow(log, n)
  {
    assert Untouched(log, at, n);
  }

  /** Handling the event at position at moves the agreement one position on. */
  lemma HandlingAgrees(s: State, at: nat, seenAt: nat, token: nat)
    requires at < seenAt <= |s.log| && (s.log[at].Put? || s.log[at].Drop?) && Agrees(s.log, at, Told(s.sent))
    ensures Agrees(s.log, at + 1, Told(Handled(s, at, seenAt, token).sent))
  {
    var log, caller := s.log, Told(s.sent);
    var found := BodyAt(log, seenAt, log[at].name);
    var c := DecodeEvent(log[at], found);
    var caller' := AppliedIf(caller, c);
    if c.Some? { ToldSnoc(s.sent, c.value); }
    assert Told(Handled(s, at, seenAt, token).sent) == caller';
    forall n | Untouched(log, at + 1, n) && Legible(log, |log|, n) ensures Get(caller', n) == ActiveNow(log, n) {
      if n == log[at].name {
        OwnNameAgrees(log, at, seenAt, caller);
      } else {
        OtherNameAgrees(log, at, found, caller, n);
      }
    }
  }

  lemma TellKeepsBooks(s: State, c: Change)
    requires s.live == Told(s.sent).Keys
    ensures s.Tell(c).live == Told(s.Tell(c).sent).Keys
  {
    ToldSnoc(s.sent, c);
  }

  lemma WriteKeepsInv(s: State, e: Event)
    requires Inv(s)
    ensures Inv(s.(log := s.log + [e]))
  {
    if s.Position().Some? { AgreesAfterWrite(s.log, e, s.Position().value, Told(s.sent)); }
    match s.phase
    case Sending(pin, docs, _) => SnapshotAfterWrite(s.log, e, pin, docs);
    case Reconciling(pin, docs, _) => SnapshotAfterWrite(s.log, e, pin, docs);
    case Open(at) => AgreesAfterWrite(s.log, e, at, Told(s.sent));
    case Tailing(at) => AgreesAfterWrite(s.log, e, at, Told(s.sent));
    case _ =>
  }

  lemma ListKeepsInv(s: State, docs: map<Name, Document>)
    requires Inv(s) && s.phase.Listing? && ReadSometime(s.log, s.phase.pin, docs)
    ensures Inv(s.(phase := Sending(s.phase.pin, docs, docs.Keys)))
  {
    SnapshotIsConsistent(s.log, s.phase.pin, docs);
  }

  lemma SendDocKeepsInv(s: State, n: Name)
    requires Inv(s) && s.phase.Sending? && n in s.phase.left && n in s.phase.docs
    ensures Inv(s.Tell(Upsert(n, s.phase.docs[n])).(phase := s.phase.(left := s.phase.left - {n})))
  {
    ToldSnoc(s.sent, Upsert(n, s.phase.docs[n]));
  }

  lemma ReconcileKeepsInv(s: State)
    requires Inv(s) && s.phase.Sending? && s.phase.left == {}
    ensures Inv(s.(phase := Reconciling(s.phase.pin, s.phase.docs, s.live - s.phase.docs.Keys)))
  {
  }

  lemma SendStaleKeepsInv(s: State, n: Name)
    requires Inv(s) && s.phase.Reconciling? && n in s.phase.stale
    ensures Inv(s.Tell(Delete(n)).(phase := s.phase.(stale := s.phase.stale - {n})))
  {
    ToldSnoc(s.sent, Delete(n));
  }

  lemma SnapshotDoneKeepsInv(s: State)
    requires Inv(s) && s.phase.Reconciling? && s.phase.stale == {}
    ensures Inv(s.(time := Some(s.phase.pin), phase := Opening))
  {
    SnapshotIsExact(s);
  }

  /** With nothing stale left the caller holds the listed documents and no others. */
  lemma SnapshotIsExact(s: State)
    requires Inv(s) && s.phase.Reconciling? && s.phase.stale == {}
    ensures Told(s.sent) == s.phase.docs
  {
    var caller, docs := Told(s.sent), s.phase.docs;
    assert caller.Keys <= (caller.Keys - docs.Keys) + docs.Keys;
    forall n | n in docs ensures n in caller { assert Get(caller, n) == Some(docs[n]); }
    assert caller.Keys == docs.Keys;
    forall n | n in docs ensures caller[n] == docs[n] { assert Get(caller, n) == Some(docs[n]); }
  }

  lemma WatchKeepsInv(s: State, token: Option<nat>)
    requires Inv(s) && s.Position().Some? && (token.Some? ==> Quiet(s.log, s.Position().value, token.value))
    ensures Inv(s.(token := if token.Some? then token else s.token, phase := Open(s.Position().value)))
  {
    if token.Some? { AgreesAcrossQuiet(s.log, s.Position().value, token.value, Told(s.sent)); }
  }

  lemma ReadyKeepsInv(s: State)
    requires Inv(s) && s.phase.Open?
    ensures Inv(s.Tell(Ready).(phase := Tailing(s.phase.at)))
  {
    ToldSnoc(s.sent, Ready);
  }

  lemma PassByKeepsInv(s: State)
    requires Inv(s) && s.phase.Tailing? && s.phase.at < |s.log| && s.log[s.phase.at] == Elsewhere
    ensures Inv(s.(phase := Tailing(s.phase.at + 1)))
  {
    var at := s.phase.at;
    assert Quiet(s.log, at, at + 1);
    AgreesAcrossQuiet(s.log, at, at + 1, Told(s.sent));
  }

  lemma HandleKeepsInv(s: State, seenAt: nat, token: nat)
    requires Inv(s) && s.phase.Tailing? && s.phase.at < seenAt <= |s.log| && Quiet(s.log, s.phase.at + 1, token)
    requires s.log[s.phase.at].Put? || s.log[s.phase.at].Drop?
    ensures Inv(Handled(s, s.phase.at, seenAt, token))
  {
    var at := s.phase.at;
    HandlingAgrees(s, at, seenAt, token);
    AgreesAcrossQuiet(s.log, at + 1, token, Told(Handled(s, at, seenAt, token).sent));
    var c := DecodeEvent(s.log[at], BodyAt(s.log, seenAt, s.log[at].name));
    if c.Some? { TellKeepsBooks(s, c.value); }
  }

  lemma {:induction false} StepKeepsInv(s: State, step: Step, s': State)
    requires Inv(s) && Next(s, step, s')
    ensures Inv(s')
  {
    match step
    case Write(e) => WriteKeepsInv(s, e);
    case List(docs) => ListKeepsInv(s, docs);
    case SendDoc(n) => SendDocKeepsInv(s, n);
    case StartReconcile => ReconcileKeepsInv(s);
    case SendStale(n) => SendStaleKeepsInv(s, n);
    case SnapshotDone => SnapshotDoneKeepsInv(s);
    case Watch(token) => WatchKeepsInv(s, token);
    case SendReady => ReadyKeepsInv(s);
    case PassBy => PassByKeepsInv(s);
    case Handle(seenAt, behind) => HandleKeepsInv(s, seenAt, behind);
    case _ =>
  }

  lemma {:induction false} RunKeepsInv(run: seq<State>, steps: seq<Step>, i: nat)
    requires IsRun(run, steps) && i < |run|
    ensures Inv(run[i])
  {
    if i > 0 {
      RunKeepsInv(run, steps, i - 1);
      StepKeepsInv(run[i - 1], steps[i - 1], run[i]);
    }
  }

  /** The invariant holds in every reachable state. */
  lemma ReachableInv(s: State)
    requires Reachable(s)
    ensures Inv(s)
  {
    var run, steps :| IsRun(run, steps) && run[|run| - 1] == s;
    RunKeepsInv(run, steps, |run| - 1);
  }

  // ----- what every run guarantees -----

  /** live is always exactly the set of names the caller was told are live. */
  lemma LiveIsWhatWasTold(s: State)
    requires Reachable(s)
    ensures s.live == Told(s.sent).Keys
  {
    ReachableInv(s);
  }

  /** A completed snapshot leaves the caller with exactly the documents it read; nothing stale survives. */
  lemma CompletedSnapshot(s: State, s': State)
    requires Reachable(s) && Next(s, SnapshotDone, s')
    ensures Told(s'.sent) == s.phase.docs && s'.live == s.phase.docs.Keys
  {
    ReachableInv(s);
    SnapshotIsExact(s);
  }

  /** While a position is held, the caller is exact on every legible name with no write after it. */
  lemma PositionAgrees(s: State, n: Name)
    requires Reachable(s) && s.Position().Some? && Untouched(s.log, s.Position().value, n) && Legible(s.log, |s.log|, n)
    ensures Get(Told(s.sent), n) == ActiveNow(s.log, n)
  {
    ReachableInv(s);
  }

  /** A position is held, and nothing of this collection comes after it. */
  ghost predicate CaughtUp(s: State)
  {
    s.Position().Some? && Quiet(s.log, s.Position().value, |s.log|)
  }

  /** A stream with nothing more to deliver has caught up. */
  lemma DrainedIsCaughtUp(s: State)
    requires Reachable(s) && s.phase.Tailing? && Quiet(s.log, s.phase.at, |s.log|)
    ensures CaughtUp(s)
  {
    ReachableInv(s);
  }

  /** The caller's set is the set of active documents. */
  ghost predicate Exact(s: State)
  {
    forall n :: Get(Told(s.sent), n) == ActiveNow(s.log, n)
  }

  /**
   Caught up, the caller is right about every legible name, and an illegible one
   has no document to be right about.
   */
  lemma CaughtUpName(s: State, n: Name)
    requires Reachable(s) && CaughtUp(s)
    ensures Legible(s.log, |s.log|, n) ==> Get(Told(s.sent), n) == ActiveNow(s.log, n)
    ensures !Legible(s.log, |s.log|, n) ==> ActiveNow(s.log, n) == None
  {
    ReachableInv(s);
    var at := s.Position().value;
    forall i | at <= i < |s.log| ensures !Touches(s.log[i], n) { assert s.log[i] == Elsewhere; }
    if !Legible(s.log, |s.log|, n) { IllegibleIsInactive(s.log, |s.log|, n); }
  }

  /** Caught up, the caller is exact if and only if no live name was last written illegibly. */
  lemma CaughtUpIsExactIff(s: State)
    requires Reachable(s) && CaughtUp(s)
    ensures Exact(s) <==> forall n :: n in s.live ==> Legible(s.log, |s.log|, n)
  {
    LiveIsWhatWasTold(s);
    if Exact(s) {
      forall n | n in s.live ensures Legible(s.log, |s.log|, n) {
        assert Get(Told(s.sent), n) == ActiveNow(s.log, n);
        CaughtUpName(s, n);
      }
    }
    if forall n :: n in s.live ==> Legible(s.log, |s.log|, n) {
      forall n ensures Get(Told(s.sent), n) == ActiveNow(s.log, n) {
        CaughtUpName(s, n);
        if !Legible(s.log, |s.log|, n) { assert n !in s.live; }
      }
    }
  }

  /** Every write of the collection decodes and names a non-empty key. */
  ghost predicate AllLegible(log: seq<Event>)
  {
    forall i :: 0 <= i < |log| ==> (log[i].Put? ==> log[i].body.Readable?) && (log[i].Drop? ==> log[i].name != "")
  }

  lemma {:induction false} AllLegibleNames(log: seq<Event>, k: nat, n: Name)
    requires AllLegible(log) && k <= |log|
    ensures Legible(log, k, n)
  {
    if k > 0 { AllLegibleNames(log, k - 1, n); }
  }

  /** When all writes are legible the caller converges: caught up means exact. */
  lemma Converges(s: State)
    requires Reachable(s) && CaughtUp(s) && AllLegible(s.log)
    ensures Exact(s)
  {
    forall n ensures Legible(s.log, |s.log|, n) { AllLegibleNames(s.log, |s.log|, n); }
    CaughtUpIsExactIff(s);
  }

  /** The branch that fails: handling an illegible write to a live name leaves every caught-up caller wrong. */
  lemma IllegibleWriteIsMissed(s: State, n: Name, e: Event) returns (s': State)
    requires Reachable(s) && s.phase.Tailing? && s.phase.at == |s.log| && n in s.live
    requires (e.Put? && e.name == n && e.body.Unreadable? && !e.lookup) || (e == Drop(n) && n == "")
    ensures Reachable(s') && s'.log == s.log + [e] && CaughtUp(s') && !Exact(s')
  {
    var t := s.(log := s.log + [e]);
    ReachableStep(s, Write(e), t);
    s' := Handled(t, |s.log|, |t.log|, |t.log|);
    ReachableStep(t, Handle(|t.log|, |t.log|), s');
    ReachableInv(s');
    assert !Legible(s'.log, |s'.log|, n);
    CaughtUpIsExactIff(s');
  }

  /** Ready is sent only when the caller is exact on every legible name not written since the resume position. */
  lemma ReadyAgrees(s: State, s': State, n: Name)
    requires Reachable(s) && Next(s, SendReady, s') && Untouched(s.log, s.phase.at, n) && Legible(s.log, |s.log|, n)
    ensures Get(Told(s'.sent), n) == ActiveNow(s'.log, n)
  {
    ReachableInv(s);
    ToldSnoc(s.sent, Ready);
  }

  // ----- catching up is always possible -----

  /** The collection as a map. */
  function StoreAt(log: seq<Event>, k: nat): map<Name, Body>
    requires k <= |log|
  {
    if k == 0 then map[]
    else match log[k - 1]
      case Put(n, body, _) => StoreAt(log, k - 1)[n := body]
      case Drop(n) => StoreAt(log, k - 1) - {n}
      case Elsewhere => StoreAt(log, k - 1)
      case Invalidate(docs) => docs
  }

  lemma {:induction false} StoreHoldsBodies(log: seq<Event>, k: nat, n: Name)
    requires k <= |log|
    ensures Get(StoreAt(log, k), n) == BodyAt(log, k, n)
  {
    if k > 0 { StoreHoldsBodies(log, k - 1, n); }
  }

  predicate IsActive(b: Body)
  {
    ActiveBody(Some(b)).Some?
  }

  function ActiveDocs(store: map<Name, Body>): map<Name, Document>
  {
    map n | n in store && IsActive(store[n]) :: store[n].doc
  }

  /** Every active document decodes, so that ListActive succeeds. */
  predicate ListSucceeds(store: map<Name, Body>)
  {
    forall n :: n in store ==> store[n].Unreadable? ==> store[n].deleted
  }

  lemma ListNow(log: seq<Event>)
    requires ListSucceeds(StoreAt(log, |log|))
    ensures ReadSometime(log, |log|, ActiveDocs(StoreAt(log, |log|)))
  {
    var docs := ActiveDocs(StoreAt(log, |log|));
    forall n ensures NameRead(log, |log|, n, Get(docs, n)) {
      StoreHoldsBodies(log, |log|, n);
      assert ListedAt(log, |log|, n, Get(docs, n));
    }
  }

  /**
   Resuming: the steps FilterCDC takes when it holds a position. Own: all steps
   it can take by itself, without writes and without a position lost to the server.
   */
  datatype Kind = Resuming | Own

  predicate May(kind: Kind, step: Step)
  {
    match kind
    case Resuming => step.Fail? || step.Resume? || step.Watch? || step.SendReady? || step.PassBy? || step.Handle?
    case Own => !step.Write? && !step.Lost?
  }

  /** s' can follow s by steps of the given kind. */
  ghost predicate Leads(s: State, s': State, kind: Kind)
  {
    exists run, steps ::
      IsPath(run, steps) && run[0] == s && run[|steps|] == s' && forall i :: 0 <= i < |steps| ==> May(kind, steps[i])
  }

  lemma LeadsNowhere(s: State, kind: Kind)
    ensures Leads(s, s, kind)
  {
    assert IsPath([s], []);
  }

  lemma LeadsOn(s: State, t: State, step: Step, t': State, kind: Kind)
    requires Reachable(t) && Leads(s, t, kind) && Next(t, step, t') && May(kind, step)
    ensures Reachable(t') && Leads(s, t', kind)
  {
    ReachableStep(t, step, t');
    var run, steps :|
      IsPath(run, steps) && run[0] == s && run[|steps|] == t && forall i :: 0 <= i < |steps| ==> May(kind, steps[i]);
    assert IsPath(run + [t'], steps + [step]);
  }

  lemma LeadsByOwn(s: State, t: State)
    requires Leads(s, t, Resuming)
    ensures Leads(s, t, Own)
  {
  }

  /** Following the stream to its end, or to where the collection was dropped. */
  lemma {:induction false} TailOn(s: State, t: State) returns (t': State)
    requires Reachable(t) && Leads(s, t, Resuming) && t.phase.Tailing? && t.phase.at <= |t.log|
    ensures Reachable(t') && Leads(s, t', Resuming) && t'.log == t.log && t'.phase.Tailing? && t.phase.at <= t'.phase.at
    ensures t'.phase.at == |t.log| || (t'.phase.at < |t.log| && t.log[t'.phase.at].Invalidate?)
    decreases |t.log| - t.phase.at
  {
    var at := t.phase.at;
    if at == |t.log| || t.log[at].Invalidate? {
      t' := t;
    } else if t.log[at] == Elsewhere {
      var u := t.(phase := Tailing(at + 1));
      LeadsOn(s, t, PassBy, u, Resuming);
      t' := TailOn(s, u);
    } else {
      var u := Handled(t, at, |t.log|, at + 1);
      LeadsOn(s, t, Handle(|t.log|, at + 1), u, Resuming);
      t' := TailOn(s, u);
    }
  }

  /** From a held position the stream can be opened again and followed. */
  lemma Reopen(s: State) returns (t: State)
    requires Reachable(s) && s.Position().Some?
    ensures Reachable(t) && Leads(s, t, Resuming) && t.log == s.log && t.phase.Tailing?
    ensures s.Position().value <= t.phase.at
    ensures t.phase.at == |t.log| || (t.phase.at < |t.log| && t.log[t.phase.at].Invalidate?)
  {
    ReachableInv(s);
    LeadsNowhere(s, Resuming);
    var pos := s.Position().value;
    var s1 := s.(phase := Idle);
    LeadsOn(s, s, Fail, s1, Resuming);
    var s2 := s1.(phase := Opening);
    LeadsOn(s, s1, Resume, s2, Resuming);
    var s3 := s2.(phase := Open(pos));
    LeadsOn(s, s2, Watch(None), s3, Resuming);
    var s4 := s3.Tell(Ready).(phase := Tailing(pos));
    LeadsOn(s, s3, SendReady, s4, Resuming);
    t := TailOn(s, s4);
  }

  /** A held position is enough to catch up: resuming replays everything after it. */
  lemma CanResume(s: State) returns (s': State)
    requires Reachable(s) && s.Position().Some?
    requires forall i :: s.Position().value <= i < |s.log| ==> !s.log[i].Invalidate?
    ensures Reachable(s') && Leads(s, s', Resuming) && s'.log == s.log && CaughtUp(s')
  {
    s' := Reopen(s);
    DrainedIsCaughtUp(s');
  }

  lemma {:induction false} SendAllDocs(s: State, t: State) returns (s': State)
    requires Reachable(t) && Leads(s, t, Own) && t.phase.Sending?
    ensures Reachable(s') && Leads(s, s', Own) && s'.log == t.log && s'.phase.Reconciling?
    ensures s'.phase.pin == t.phase.pin
    decreases t.phase.left
  {
    ReachableInv(t);
    if t.phase.left == {} {
      s' := t.(phase := Reconciling(t.phase.pin, t.phase.docs, t.live - t.phase.docs.Keys));
      LeadsOn(s, t, StartReconcile, s', Own);
    } else {
      var n :| n in t.phase.left;
      var u := t.Tell(Upsert(n, t.phase.docs[n])).(phase := t.phase.(left := t.phase.left - {n}));
      LeadsOn(s, t, SendDoc(n), u, Own);
      s' := SendAllDocs(s, u);
    }
  }

  lemma {:induction false} SendAllStale(s: State, t: State) returns (s': State)
    requires Reachable(t) && Leads(s, t, Own) && t.phase.Reconciling?
    ensures Reachable(s') && Leads(s, s', Own) && s'.log == t.log && s'.phase.Reconciling? && s'.phase.stale == {}
    ensures s'.phase.pin == t.phase.pin && s'.Position() == None
    decreases t.phase.stale
  {
    ReachableInv(t);
    if t.phase.stale == {} {
      s' := t;
    } else {
      var n :| n in t.phase.stale;
      var u := t.Tell(Delete(n)).(phase := t.phase.(stale := t.phase.stale - {n}));
      LeadsOn(s, t, SendStale(n), u, Own);
      s' := SendAllStale(s, u);
    }
  }

  /** Without a position a snapshot catches up, and exactly. */
  lemma CanSnapshot(s: State, t: State) returns (s': State)
    requires Reachable(t) && Leads(s, t, Own) && t.Position().None? && ListSucceeds(StoreAt(t.log, |t.log|))
    ensures Reachable(s') && Leads(s, s', Own) && s'.log == t.log && CaughtUp(s') && Exact(s')
  {
    var pin := |t.log|;
    var s1 := t.(phase := Idle);
    LeadsOn(s, t, Fail, s1, Own);
    var s2 := s1.(phase := Listing(pin));
    LeadsOn(s, s1, Pin(pin), s2, Own);
    var docs := ActiveDocs(StoreAt(t.log, pin));
    ListNow(t.log);
    var s3 := s2.(phase := Sending(pin, docs, docs.Keys));
    LeadsOn(s, s2, List(docs), s3, Own);
    var s4 := SendAllDocs(s, s3);
    var s5 := SendAllStale(s, s4);
    s' := FinishFrom(s, s5);
  }

  /** From every reachable state FilterCDC can catch up by its own steps, whatever became of the collection. */
  lemma CanCatchUp(s: State) returns (s': State)
    requires Reachable(s) && ListSucceeds(StoreAt(s.log, |s.log|))
    ensures Reachable(s') && Leads(s, s', Own) && s'.log == s.log && CaughtUp(s')
  {
    LeadsNowhere(s, Own);
    if s.Position().None? {
      s' := CanSnapshot(s, s);
    } else {
      var t := Reopen(s);
      if t.phase.at == |t.log| {
        LeadsByOwn(s, t);
        DrainedIsCaughtUp(t);
        s' := t;
      } else {
        LeadsByOwn(s, t);
        var u := t.Forget().(phase := Idle);
        LeadsOn(s, t, Invalidated, u, Own);
        s' := CanSnapshot(s, u);
      }
    }
  }

  lemma FinishFrom(s: State, s5: State) returns (s': State)
    requires Reachable(s5) && Leads(s, s5, Own)
    requires s5.phase.Reconciling? && s5.phase.stale == {} && s5.phase.pin == |s5.log| && s5.Position() == None
    ensures Reachable(s') && Leads(s, s', Own) && s'.log == s5.log && CaughtUp(s') && Exact(s')
  {
    var pin := |s5.log|;
    ExactAtPin(s5);
    var s6 := s5.(time := Some(pin), phase := Opening);
    LeadsOn(s, s5, SnapshotDone, s6, Own);
    var s7 := s6.(phase := Open(pin));
    LeadsOn(s, s6, Watch(None), s7, Own);
    s' := s7.Tell(Ready).(phase := Tailing(pin));
    LeadsOn(s, s7, SendReady, s', Own);
    ToldSnoc(s7.sent, Ready);
    assert Told(s'.sent) == Told(s5.sent) && s'.log == s5.log;
  }

  lemma ExactAtPin(s: State)
    requires Reachable(s) && s.phase.Reconciling? && s.phase.stale == {} && s.phase.pin == |s.log|
    ensures Exact(s)
  {
    ReachableInv(s);
    SnapshotIsExact(s);
    forall n ensures Get(Told(s.sent), n) == ActiveNow(s.log, n) { assert Untouched(s.log, |s.log|, n); }
  }

  // ----- the states above exist -----

  /** One document is stored, told to the caller, and the stream has nothing more to deliver. */
  lemma TailingWith(n: Name, doc: Document) returns (s: State)
    requires !doc.deleted
    ensures Reachable(s) && s.phase == Tailing(|s.log|) && s.log == [Put(n, Readable(doc), false)]
    ensures n in s.live && Get(Told(s.sent), n) == Some(doc)
  {
    var e := Put(n, Readable(doc), false);
    var stored := START.(log := [e]);
    StartIsReachable();
    ReachableStep(START, Write(e), stored);
    StoreOf(e);
    LeadsNowhere(stored, Own);
    var told := CanSnapshot(stored, stored);
    s := Reopen(told);
    DrainedIsCaughtUp(s);
    AllLegibleNames(s.log, |s.log|, n);
    CaughtUpName(s, n);
    LiveIsWhatWasTold(s);
  }

  lemma StoreOf(e: Event)
    requires e.Put? && e.body.Readable?
    ensures ListSucceeds(StoreAt([e], 1))
  {
  }

  /** A write that arrives while the stream has nothing to deliver is handled next. */
  lemma Sees(s: State, e: Event) returns (s': State)
    requires Reachable(s) && s.phase == Tailing(|s.log|) && (e.Put? || e.Drop?)
    ensures Reachable(s') && s'.log == s.log + [e] && s'.phase == Tailing(|s'.log|) && CaughtUp(s')
    ensures s'.sent == s.sent + ChangesOf(DecodeEvent(e, BodyAt(s'.log, |s'.log|, e.name)))
  {
    var t := s.(log := s.log + [e]);
    ReachableStep(s, Write(e), t);
    s' := Handled(t, |s.log|, |t.log|, |t.log|);
    ReachableStep(t, Handle(|t.log|, |t.log|), s');
    DrainedIsCaughtUp(s');
  }

  function ChangesOf(c: Option<Change>): seq<Change>
  {
    if c.Some? then [c.value] else []
  }

  /** The concrete failure of IllegibleWriteIsMissed: a damaged second write of a name leaves the caller wrong. */
  lemma DamageIsMissed() returns (s: State)
    ensures Reachable(s) && CaughtUp(s) && !Exact(s)
  {
    var good := TailingWith("a", Document("", map[], "", false));
    s := IllegibleWriteIsMissed(good, "a", Put("a", Unreadable(false, false), false));
  }
}
