/**
 The hot-reloading certificate of runtime/servertls/servertls.go: file writes
 and any number of concurrent reload calls, interleaved step by step.
 */
module CertReload {
  import opened Wrappers

  datatype FileId = CertFile | KeyFile | CAFile

  /** Every write gives a file a modification time it has not had before. */
  datatype File = File(content: string, mtime: nat)

  /** tls.LoadX509KeyPair and AppendCertsFromPEM as functions of file contents; CA files are optional. */
  datatype Config = Config(clientCA: bool, pair: (string, string) -> Option<string>, pool: string -> Option<string>)
  {
    function Files(): set<FileId>
    {
      if clientCA then {CertFile, KeyFile, CAFile} else {CertFile, KeyFile}
    }
  }

  /** What a set of file contents loads to: the certificate and, when configured, the client CA pool. */
  datatype Loaded = Loaded(cert: string, pool: Option<string>)

  function Load(cfg: Config, contents: map<FileId, string>): Option<Loaded>
    requires contents.Keys == cfg.Files()
  {
    var cert := cfg.pair(contents[CertFile], contents[KeyFile]);
    if cert.None? then None
    else if !cfg.clientCA then Some(Loaded(cert.value, None))
    else
      var pool := cfg.pool(contents[CAFile]);
      if pool.None? then None else Some(Loaded(cert.value, pool))
  }

  /** What is served, the modification times recorded with it, and the contents it was loaded from. */
  datatype Served = Served(loaded: Loaded, mtimes: map<FileId, nat>, contents: map<FileId, string>)

  /** The local variables of one reload call. */
  datatype Call = Call(mtimes: map<FileId, nat>, loading: bool, contents: map<FileId, string>)

  datatype State = State(files: map<FileId, File>, clock: nat, served: Option<Served>, calls: map<nat, Call>)

  datatype Step =
    | Write(f: FileId, content: string)
    | Delete(f: FileId)
    | Begin(c: nat)
    | Stat(c: nat, f: FileId)
    | Unchanged(c: nat)
    | Changed(c: nat)
    | Read(c: nat, f: FileId)
    | Publish(c: nat)
    | Abort(c: nat)

  /** cert, then key, then CA. */
  predicate Before(f: FileId, done: set<FileId>)
  {
    f !in done && (f != CertFile ==> CertFile in done) && (f == CAFile ==> KeyFile in done)
  }

  predicate IsUnchanged(s: State, call: Call)
  {
    s.served.Some? && call.mtimes == s.served.value.mtimes
  }

  ghost predicate Next(cfg: Config, s: State, step: Step, s': State)
  {
    match step
    case Write(f, content) => s' == s.(files := s.files[f := File(content, s.clock)], clock := s.clock + 1)
    case Delete(f) => s' == s.(files := s.files - {f})
    case Begin(c) => c !in s.calls && s' == s.(calls := s.calls[c := Call(map[], false, map[])])
    case Stat(c, f) =>
      && c in s.calls && f in cfg.Files() && Before(f, s.calls[c].mtimes.Keys) && f in s.files && !s.calls[c].loading
      && s' == s.(calls := s.calls[c := s.calls[c].(mtimes := s.calls[c].mtimes[f := s.files[f].mtime])])
    case Unchanged(c) =>
      && c in s.calls && s.calls[c].mtimes.Keys == cfg.Files() && !s.calls[c].loading && IsUnchanged(s, s.calls[c])
      && s' == s.(calls := s.calls - {c})
    case Changed(c) =>
      && c in s.calls && s.calls[c].mtimes.Keys == cfg.Files() && !s.calls[c].loading && !IsUnchanged(s, s.calls[c])
      && s' == s.(calls := s.calls[c := s.calls[c].(loading := true)])
    case Read(c, f) =>
      && c in s.calls && s.calls[c].loading && f in cfg.Files() && Before(f, s.calls[c].contents.Keys) && f in s.files
      && s' == s.(calls := s.calls[c := s.calls[c].(contents := s.calls[c].contents[f := s.files[f].content])])
    case Publish(c) =>
      && c in s.calls && s.calls[c].loading && s.calls[c].contents.Keys == cfg.Files()
      && Load(cfg, s.calls[c].contents).Some?
      && s' == s.(served := Some(Served(Load(cfg, s.calls[c].contents).value, s.calls[c].mtimes, s.calls[c].contents)),
                  calls := s.calls - {c})
    case Abort(c) => c in s.calls && s' == s.(calls := s.calls - {c})
  }

  const START := State(map[], 0, None, map[])

  ghost predicate IsPath(cfg: Config, run: seq<State>, steps: seq<Step>)
  {
    |run| == |steps| + 1 && forall i :: 0 <= i < |steps| ==> Next(cfg, run[i], steps[i], run[i + 1])
  }

  ghost predicate IsRun(cfg: Config, run: seq<State>, steps: seq<Step>)
  {
    IsPath(cfg, run, steps) && run[0] == START
  }

  ghost predicate Reachable(cfg: Config, s: State)
  {
    exists run, steps :: IsRun(cfg, run, steps) && run[|run| - 1] == s
  }

  lemma ReachableStep(cfg: Config, s: State, step: Step, s': State)
    requires Reachable(cfg, s) && Next(cfg, s, step, s')
    ensures Reachable(cfg, s')
  {
    var run, steps :| IsRun(cfg, run, steps) && run[|run| - 1] == s;
    assert IsRun(cfg, run + [s'], steps + [step]);
  }

  // ----- the invariant -----

  /** Contents read after a stat are current as long as the modification time seen by the stat is. */
  ghost predicate Consistent(files: map<FileId, File>, clock: nat, mtimes: map<FileId, nat>,
                             contents: map<FileId, string>)
  {
    && (forall f :: f in mtimes ==> mtimes[f] < clock)
    && (forall f :: f in contents && f in mtimes && f in files && files[f].mtime == mtimes[f] ==>
          contents[f] == files[f].content)
  }

  ghost predicate CallInv(cfg: Config, s: State, call: Call)
  {
    && Consistent(s.files, s.clock, call.mtimes, call.contents)
    && call.mtimes.Keys <= cfg.Files() && (call.loading ==> call.mtimes.Keys == cfg.Files())
    && (!call.loading ==> call.contents == map[])
  }

  ghost predicate ServedInv(cfg: Config, s: State, served: Served)
  {
    && Consistent(s.files, s.clock, served.mtimes, served.contents)
    && served.mtimes.Keys == served.contents.Keys == cfg.Files()
    && Load(cfg, served.contents) == Some(served.loaded)
  }

  ghost predicate Inv(cfg: Config, s: State)
  {
    && (forall f :: f in s.files ==> s.files[f].mtime < s.clock)
    && (forall c :: c in s.calls ==> CallInv(cfg, s, s.calls[c]))
    && (s.served.Some? ==> ServedInv(cfg, s, s.served.value))
  }

  lemma FilesKeepInv(cfg: Config, s: State, step: Step, s': State)
    requires Inv(cfg, s) && Next(cfg, s, step, s') && (step.Write? || step.Delete?)
    ensures Inv(cfg, s')
  {
    forall c | c in s'.calls ensures CallInv(cfg, s', s'.calls[c]) { assert CallInv(cfg, s, s.calls[c]); }
  }

  /** The call c becomes call; the others are untouched. */
  lemma CallKeepsInv(cfg: Config, s: State, c: nat, call: Call)
    requires Inv(cfg, s) && CallInv(cfg, s, call)
    ensures Inv(cfg, s.(calls := s.calls[c := call]))
  {
    var s' := s.(calls := s.calls[c := call]);
    forall d | d in s'.calls ensures CallInv(cfg, s', s'.calls[d]) {
      if d != c { assert CallInv(cfg, s, s.calls[d]); }
    }
  }

  lemma {:induction false} StepKeepsInv(cfg: Config, s: State, step: Step, s': State)
    requires Inv(cfg, s) && Next(cfg, s, step, s')
    ensures Inv(cfg, s')
  {
    match step
    case Write(_, _) => FilesKeepInv(cfg, s, step, s');
    case Delete(_) => FilesKeepInv(cfg, s, step, s');
    case Begin(c) => CallKeepsInv(cfg, s, c, s'.calls[c]);
    case Stat(c, _) => CallKeepsInv(cfg, s, c, s'.calls[c]);
    case Changed(c) => CallKeepsInv(cfg, s, c, s'.calls[c]);
    case Read(c, _) => CallKeepsInv(cfg, s, c, s'.calls[c]);
    case _ =>
      forall d | d in s'.calls ensures CallInv(cfg, s', s'.calls[d]) { assert CallInv(cfg, s, s.calls[d]); }
  }

  lemma {:induction false} RunKeepsInv(cfg: Config, run: seq<State>, steps: seq<Step>, i: nat)
    requires IsRun(cfg, run, steps) && i < |run|
    ensures Inv(cfg, run[i])
  {
    if i > 0 {
      RunKeepsInv(cfg, run, steps, i - 1);
      StepKeepsInv(cfg, run[i - 1], steps[i - 1], run[i]);
    }
  }

  lemma ReachableInv(cfg: Config, s: State)
    requires Reachable(cfg, s)
    ensures Inv(cfg, s)
  {
    var run, steps :| IsRun(cfg, run, steps) && run[|run| - 1] == s;
    RunKeepsInv(cfg, run, steps, |run| - 1);
  }

  // ----- what is served -----

  /** The recorded modification times are those of the files now. */
  ghost predicate UpToDate(cfg: Config, s: State)
  {
    s.served.Some? && forall f :: f in cfg.Files() ==> f in s.files && Some(s.files[f].mtime) == MtimeOf(s, f)
  }

  function MtimeOf(s: State, f: FileId): Option<nat>
  {
    if s.served.Some? && f in s.served.value.mtimes then Some(s.served.value.mtimes[f]) else None
  }

  function Contents(cfg: Config, s: State): map<FileId, string>
  {
    map f | f in cfg.Files() && f in s.files :: s.files[f].content
  }

  /** When the recorded times are current, the certificate and the CA pool are what the files hold now. */
  lemma UpToDateIsFresh(cfg: Config, s: State)
    requires Reachable(cfg, s) && UpToDate(cfg, s)
    ensures Contents(cfg, s).Keys == cfg.Files() && Load(cfg, Contents(cfg, s)) == Some(s.served.value.loaded)
  {
    ReachableInv(cfg, s);
    var served := s.served.value;
    forall f | f in cfg.Files() ensures f in s.files && served.contents[f] == s.files[f].content {
      assert Some(s.files[f].mtime) == MtimeOf(s, f);
    }
    assert Contents(cfg, s) == served.contents;
  }

  /**
   In terms of the files and of the two loading functions: what is served when the
   recorded times are current.
   */
  lemma ServedFromFiles(cfg: Config, s: State)
    requires Reachable(cfg, s) && UpToDate(cfg, s)
    ensures CertFile in s.files && KeyFile in s.files && (cfg.clientCA ==> CAFile in s.files)
    ensures cfg.pair(s.files[CertFile].content, s.files[KeyFile].content) == Some(s.served.value.loaded.cert)
    ensures if cfg.clientCA then s.served.value.loaded.pool.Some? &&
                                 s.served.value.loaded.pool == cfg.pool(s.files[CAFile].content)
            else s.served.value.loaded.pool == None
  {
    UpToDateIsFresh(cfg, s);
    assert CertFile in Contents(cfg, s) && KeyFile in Contents(cfg, s);
    if cfg.clientCA { assert CAFile in Contents(cfg, s); }
  }

  /** Only a publication changes what is served, and it never takes the certificate away. */
  lemma OnlyPublishServes(cfg: Config, s: State, step: Step, s': State)
    requires Next(cfg, s, step, s')
    ensures !step.Publish? ==> s'.served == s.served
    ensures s.served.Some? ==> s'.served.Some?
  {
  }

  /** Once loaded, the certificate is never absent again. */
  lemma {:induction false} NeverAbsentAgain(cfg: Config, run: seq<State>, steps: seq<Step>, i: nat, j: nat)
    requires IsRun(cfg, run, steps) && i <= j < |run| && run[i].served.Some?
    ensures run[j].served.Some?
  {
    if i < j {
      NeverAbsentAgain(cfg, run, steps, i, j - 1);
      OnlyPublishServes(cfg, run[j - 1], steps[j - 1], run[j]);
    }
  }

  /** A call that publishes leaves fresh contents behind unless a file changed since the call looked at it. */
  lemma PublishedIsFresh(cfg: Config, s: State, c: nat, s': State)
    requires Reachable(cfg, s) && Next(cfg, s, Publish(c), s')
    requires forall f :: f in cfg.Files() ==>
             f in s.files && f in s.calls[c].mtimes && s.files[f].mtime == s.calls[c].mtimes[f]
    ensures Contents(cfg, s').Keys == cfg.Files() && Load(cfg, Contents(cfg, s')) == Some(s'.served.value.loaded)
  {
    ReachableStep(cfg, s, Publish(c), s');
    forall f | f in cfg.Files() ensures f in s'.files && Some(s'.files[f].mtime) == MtimeOf(s', f) {
      assert f in s.files;
    }
    UpToDateIsFresh(cfg, s');
  }

  /** A call that finds nothing changed was right to keep the certificate, unless a file changed since it looked. */
  lemma UnchangedIsFresh(cfg: Config, s: State, c: nat, s': State)
    requires Reachable(cfg, s) && Next(cfg, s, Unchanged(c), s')
    requires forall f :: f in cfg.Files() ==>
             f in s.files && f in s.calls[c].mtimes && s.files[f].mtime == s.calls[c].mtimes[f]
    ensures Contents(cfg, s').Keys == cfg.Files() && Load(cfg, Contents(cfg, s')) == Some(s'.served.value.loaded)
  {
    ReachableStep(cfg, s, Unchanged(c), s');
    forall f | f in cfg.Files() ensures f in s'.files && Some(s'.files[f].mtime) == MtimeOf(s', f) {
      assert f in s.files;
    }
    UpToDateIsFresh(cfg, s');
  }

  // ----- the passing of time -----

  /** t can follow s. */
  ghost predicate Leads(cfg: Config, s: State, t: State)
  {
    exists run, steps :: IsPath(cfg, run, steps) && run[0] == s && run[|steps|] == t
  }

  lemma LeadsNowhere(cfg: Config, s: State)
    ensures Leads(cfg, s, s)
  {
    assert IsPath(cfg, [s], []);
  }

  lemma LeadsOne(cfg: Config, s: State, step: Step, t: State)
    requires Next(cfg, s, step, t)
    ensures Leads(cfg, s, t)
  {
    assert IsPath(cfg, [s, t], [step]);
  }

  /** These steps lead from s to t. */
  ghost predicate Via(cfg: Config, s: State, t: State, steps: seq<Step>)
  {
    exists run :: IsPath(cfg, run, steps) && run[0] == s && run[|steps|] == t
  }

  lemma ViaOne(cfg: Config, s: State, step: Step, t: State)
    requires Next(cfg, s, step, t)
    ensures Via(cfg, s, t, [step])
  {
    assert IsPath(cfg, [s, t], [step]);
  }

  lemma ViaMore(cfg: Config, s: State, t: State, u: State, steps: seq<Step>, steps': seq<Step>)
    requires Via(cfg, s, t, steps) && Via(cfg, t, u, steps')
    ensures Via(cfg, s, u, steps + steps')
  {
    var run :| IsPath(cfg, run, steps) && run[0] == s && run[|steps|] == t;
    var run' :| IsPath(cfg, run', steps') && run'[0] == t && run'[|steps'|] == u;
    var all, allSteps := run + run'[1..], steps + steps';
    forall i | 0 <= i < |allSteps| ensures Next(cfg, all[i], allSteps[i], all[i + 1]) {
      if i < |steps| {
        assert Next(cfg, run[i], steps[i], run[i + 1]);
      } else {
        assert Next(cfg, run'[i - |steps|], steps'[i - |steps|], run'[i - |steps| + 1]);
      }
    }
    assert IsPath(cfg, all, allSteps);
  }

  lemma LeadsMore(cfg: Config, s: State, t: State, u: State)
    requires Leads(cfg, s, t) && Leads(cfg, t, u)
    ensures Leads(cfg, s, u)
  {
    var run, steps :| IsPath(cfg, run, steps) && run[0] == s && run[|steps|] == t;
    var run', steps' :| IsPath(cfg, run', steps') && run'[0] == t && run'[|steps'|] == u;
    assert Via(cfg, s, t, steps) && Via(cfg, t, u, steps');
    ViaMore(cfg, s, t, u, steps, steps');
  }

  /** Nothing wrote or removed a file from s to t. */
  ghost predicate Undisturbed(s: State, t: State)
  {
    s.files == t.files && s.clock == t.clock
  }

  /** t can come after s: without a write, files can only disappear. */
  ghost predicate Elapses(s: State, t: State)
  {
    && s.clock <= t.clock
    && (s.clock == t.clock ==> forall f :: f in t.files ==> f in s.files && t.files[f] == s.files[f])
  }

  lemma ElapsesMore(s: State, t: State, u: State)
    requires Elapses(s, t) && Elapses(t, u)
    ensures Elapses(s, u)
    ensures Undisturbed(s, u) ==> Undisturbed(s, t) && Undisturbed(t, u)
  {
  }

  lemma {:induction false} PathElapses(cfg: Config, run: seq<State>, steps: seq<Step>, i: nat)
    requires IsPath(cfg, run, steps) && i < |run|
    ensures Elapses(run[0], run[i]) && (run[0].served.Some? ==> run[i].served.Some?)
  {
    if i > 0 {
      PathElapses(cfg, run, steps, i - 1);
      assert Next(cfg, run[i - 1], steps[i - 1], run[i]);
      ElapsesMore(run[0], run[i - 1], run[i]);
    }
  }

  lemma LeadsElapses(cfg: Config, s: State, t: State)
    requires Leads(cfg, s, t)
    ensures Elapses(s, t) && (s.served.Some? ==> t.served.Some?)
  {
    var run, steps :| IsPath(cfg, run, steps) && run[0] == s && run[|steps|] == t;
    PathElapses(cfg, run, steps, |steps|);
  }

  /** What two stretches of time in a row amount to. */
  lemma Chain(cfg: Config, s: State, t: State, u: State)
    requires Leads(cfg, s, t) && Leads(cfg, t, u)
    ensures Leads(cfg, s, u) && (s.served.Some? ==> u.served.Some?)
    ensures Undisturbed(s, u) ==> Undisturbed(s, t) && Undisturbed(t, u)
  {
    LeadsMore(cfg, s, t, u);
    LeadsElapses(cfg, s, t);
    LeadsElapses(cfg, t, u);
    ElapsesMore(s, t, u);
  }

  /** All files are there and load. */
  ghost predicate Loadable(cfg: Config, s: State)
  {
    Contents(cfg, s).Keys == cfg.Files() && Load(cfg, Contents(cfg, s)).Some?
  }

  /** That is so exactly when certificate and key are there and fit, and the client CA bundle, if any, is usable. */
  lemma LoadableIff(cfg: Config, s: State)
    ensures Loadable(cfg, s) <==>
            && CertFile in s.files && KeyFile in s.files
            && cfg.pair(s.files[CertFile].content, s.files[KeyFile].content).Some?
            && (cfg.clientCA ==> CAFile in s.files && cfg.pool(s.files[CAFile].content).Some?)
  {
    assert CertFile in cfg.Files() && KeyFile in cfg.Files();
    if Contents(cfg, s).Keys == cfg.Files() {
      assert CertFile in Contents(cfg, s) && KeyFile in Contents(cfg, s);
      if cfg.clientCA { assert CAFile in Contents(cfg, s); }
    }
  }

  /** The files of mtimes have these times in s. */
  ghost predicate TimesIn(s: State, mtimes: map<FileId, nat>)
  {
    forall f :: f in mtimes ==> f in s.files && s.files[f].mtime == mtimes[f]
  }

  /** The files of contents hold these contents in s. */
  ghost predicate ContentsIn(s: State, contents: map<FileId, string>)
  {
    forall f :: f in contents ==> f in s.files && s.files[f].content == contents[f]
  }

  /** mtimes are those of the files in s. */
  ghost predicate Current(cfg: Config, s: State, mtimes: map<FileId, nat>)
  {
    mtimes.Keys == cfg.Files() && forall f :: f in cfg.Files() ==> f in s.files && s.files[f].mtime == mtimes[f]
  }

  // ----- how long what is served stays fresh -----

  /** The times recorded by the last publication among the first i steps. */
  ghost function LastPublished(run: seq<State>, steps: seq<Step>, i: nat): Option<map<FileId, nat>>
    requires i <= |steps| && |run| == |steps| + 1
  {
    if i == 0 then None
    else
      var step, s := steps[i - 1], run[i - 1];
      if step.Publish? && step.c in s.calls then Some(s.calls[step.c].mtimes) else LastPublished(run, steps, i - 1)
  }

  ghost predicate FilesUntouched(steps: seq<Step>)
  {
    forall i :: 0 <= i < |steps| ==> !steps[i].Write? && !steps[i].Delete?
  }

  lemma {:induction false} ServedBy(cfg: Config, run: seq<State>, steps: seq<Step>, i: nat)
    requires IsPath(cfg, run, steps) && i <= |steps| && FilesUntouched(steps)
    ensures Undisturbed(run[0], run[i])
    ensures var last := LastPublished(run, steps, i);
            if last.None? then run[i].served == run[0].served
            else run[i].served.Some? && run[i].served.value.mtimes == last.value
  {
    if i > 0 {
      ServedBy(cfg, run, steps, i - 1);
      assert Next(cfg, run[i - 1], steps[i - 1], run[i]);
    }
  }

  lemma {:induction false} PathReachable(cfg: Config, run: seq<State>, steps: seq<Step>, i: nat)
    requires IsPath(cfg, run, steps) && i <= |steps| && Reachable(cfg, run[0])
    ensures Reachable(cfg, run[i])
  {
    if i > 0 {
      PathReachable(cfg, run, steps, i - 1);
      ReachableStep(cfg, run[i - 1], steps[i - 1], run[i]);
    }
  }

  /**
   While no file is written or removed, what is served stays fresh if and only if
   the last publication, if any, was of a call that saw the current times.
   */
  lemma StaysFreshIff(cfg: Config, run: seq<State>, steps: seq<Step>)
    requires IsPath(cfg, run, steps) && Reachable(cfg, run[0]) && UpToDate(cfg, run[0]) && FilesUntouched(steps)
    ensures var last := LastPublished(run, steps, |steps|);
            UpToDate(cfg, run[|steps|]) <==> last.None? || Current(cfg, run[|steps|], last.value)
  {
    var s, last := run[|steps|], LastPublished(run, steps, |steps|);
    ServedBy(cfg, run, steps, |steps|);
    PathReachable(cfg, run, steps, |steps|);
    ReachableInv(cfg, s);
    if last.None? {
      forall f | f in cfg.Files() ensures f in s.files && Some(s.files[f].mtime) == MtimeOf(s, f) {
        assert f in run[0].files && Some(run[0].files[f].mtime) == MtimeOf(run[0], f);
      }
    } else {
      UpToDateIff(cfg, s);
    }
  }

  lemma UpToDateIff(cfg: Config, s: State)
    requires Inv(cfg, s) && s.served.Some?
    ensures UpToDate(cfg, s) <==> Current(cfg, s, s.served.value.mtimes)
  {
    if UpToDate(cfg, s) {
      forall f | f in cfg.Files() ensures f in s.files && s.files[f].mtime == s.served.value.mtimes[f] {
        assert Some(s.files[f].mtime) == MtimeOf(s, f);
      }
    }
    if Current(cfg, s, s.served.value.mtimes) {
      forall f | f in cfg.Files() ensures f in s.files && Some(s.files[f].mtime) == MtimeOf(s, f) {
        assert s.files[f].mtime == s.served.value.mtimes[f];
      }
    }
  }

  /** No call in flight holds an older time. */
  ghost predicate NoneBehind(s: State)
  {
    forall c :: c in s.calls ==> NotBehind(s, s.calls[c].mtimes)
  }

  ghost predicate NotBehind(s: State, mtimes: map<FileId, nat>)
  {
    forall f :: f in mtimes ==> f in s.files && s.files[f].mtime == mtimes[f]
  }

  lemma NoneBehindKept(cfg: Config, s: State, step: Step, s': State)
    requires NoneBehind(s) && Next(cfg, s, step, s') && Undisturbed(s, s')
    ensures NoneBehind(s')
  {
    forall c | c in s'.calls ensures NotBehind(s', s'.calls[c].mtimes) {
      if c in s.calls { assert NotBehind(s, s.calls[c].mtimes); }
    }
  }

  lemma NoneBehindStep(cfg: Config, s: State, step: Step, s': State)
    requires Inv(cfg, s) && NoneBehind(s) && Next(cfg, s, step, s') && Undisturbed(s, s')
    ensures NoneBehind(s') && (UpToDate(cfg, s) || step.Publish? ==> UpToDate(cfg, s'))
  {
    NoneBehindKept(cfg, s, step, s');
    StepKeepsInv(cfg, s, step, s');
    if step.Publish? {
      assert NotBehind(s, s.calls[step.c].mtimes);
      UpToDateIff(cfg, s');
    } else if UpToDate(cfg, s) {
      OnlyPublishServes(cfg, s, step, s');
      UpToDateIff(cfg, s);
      UpToDateIff(cfg, s');
    }
  }

  lemma {:induction false} NoneBehindPath(cfg: Config, run: seq<State>, steps: seq<Step>, i: nat)
    requires IsPath(cfg, run, steps) && i <= |steps| && Reachable(cfg, run[0]) && NoneBehind(run[0])
    requires Undisturbed(run[0], run[i])
    ensures NoneBehind(run[i]) && (UpToDate(cfg, run[0]) ==> UpToDate(cfg, run[i]))
  {
    if i > 0 {
      PathElapses(cfg, run, steps, i - 1);
      assert Next(cfg, run[i - 1], steps[i - 1], run[i]);
      ElapsesMore(run[0], run[i - 1], run[i]);
      NoneBehindPath(cfg, run, steps, i - 1);
      PathReachable(cfg, run, steps, i - 1);
      ReachableInv(cfg, run[i - 1]);
      NoneBehindStep(cfg, run[i - 1], steps[i - 1], run[i]);
    }
  }

  lemma LeadsReachable(cfg: Config, s: State, t: State)
    requires Reachable(cfg, s) && Leads(cfg, s, t)
    ensures Reachable(cfg, t)
  {
    var run, steps :| IsPath(cfg, run, steps) && run[0] == s && run[|steps|] == t;
    PathReachable(cfg, run, steps, |steps|);
  }

  /** Undisturbed and with no call behind, what is fresh stays fresh. */
  lemma StaysFresh(cfg: Config, s: State, t: State)
    requires Reachable(cfg, s) && Leads(cfg, s, t) && NoneBehind(s) && Undisturbed(s, t)
    ensures NoneBehind(t) && (UpToDate(cfg, s) ==> UpToDate(cfg, t))
  {
    var run, steps :| IsPath(cfg, run, steps) && run[0] == s && run[|steps|] == t;
    NoneBehindPath(cfg, run, steps, |steps|);
  }

  /** A call that is behind can publish over what is fresh. */
  lemma StalePublication(cfg: Config, s: State, c: nat, s': State)
    requires Reachable(cfg, s) && UpToDate(cfg, s) && Next(cfg, s, Publish(c), s')
    ensures UpToDate(cfg, s') <==> Current(cfg, s, s.calls[c].mtimes)
  {
    ReachableStep(cfg, s, Publish(c), s');
    ReachableInv(cfg, s');
    UpToDateIff(cfg, s');
  }

  /** A step of a writer or of a call other than me. */
  predicate IsOther(step: Step, me: nat)
  {
    step.Write? || step.Delete? || step.c != me
  }

  /** What a call may rely on while others run, proved of each of their steps. */
  lemma OtherStep(cfg: Config, s: State, step: Step, s': State, me: nat)
    requires Reachable(cfg, s) && Next(cfg, s, step, s') && IsOther(step, me)
    ensures Reachable(cfg, s') && Leads(cfg, s, s')
    ensures (me in s'.calls <==> me in s.calls) && (me in s.calls ==> s'.calls[me] == s.calls[me])
  {
    ReachableStep(cfg, s, step, s');
    LeadsOne(cfg, s, step, s');
  }

  /** Only writers and calls other than me take steps from s to t. */
  ghost predicate ByOthers(cfg: Config, s: State, t: State, me: nat)
  {
    exists run, steps :: IsPath(cfg, run, steps) && run[0] == s && run[|steps|] == t && AllOther(steps, me)
  }

  predicate AllOther(steps: seq<Step>, me: nat)
  {
    forall i :: 0 <= i < |steps| ==> IsOther(steps[i], me)
  }

  lemma {:induction false} OtherPath(cfg: Config, run: seq<State>, steps: seq<Step>, me: nat, i: nat)
    requires IsPath(cfg, run, steps) && Reachable(cfg, run[0]) && AllOther(steps, me) && i < |run|
    ensures Reachable(cfg, run[i])
    ensures me in run[i].calls <==> me in run[0].calls
    ensures me in run[0].calls ==> run[i].calls[me] == run[0].calls[me]
  {
    if i > 0 {
      OtherPath(cfg, run, steps, me, i - 1);
      OtherStep(cfg, run[i - 1], steps[i - 1], run[i], me);
    }
  }

  /** However long others run, the call me is where it was, and has published nothing. */
  lemma OthersKeep(cfg: Config, s: State, t: State, me: nat)
    requires Reachable(cfg, s) && ByOthers(cfg, s, t, me)
    ensures Reachable(cfg, t) && Unpublished(cfg, s, t, me)
    ensures (me in t.calls <==> me in s.calls) && (me in s.calls ==> t.calls[me] == s.calls[me])
  {
    var run, steps :| IsPath(cfg, run, steps) && run[0] == s && run[|steps|] == t && AllOther(steps, me);
    OtherPath(cfg, run, steps, me, |steps|);
    assert Via(cfg, s, t, steps);
  }

  lemma OthersDoNothing(cfg: Config, s: State, me: nat)
    ensures ByOthers(cfg, s, s, me)
  {
    assert IsPath(cfg, [s], []) && AllOther([], me);
  }

  // ----- calls that do not publish -----

  /** t can follow s without a publication of the call me. */
  ghost predicate Unpublished(cfg: Config, s: State, t: State, me: nat)
  {
    exists steps :: Via(cfg, s, t, steps) && Publish(me) !in steps
  }

  /** A whole call, from its first step in s to giving up in t, that published nothing. */
  ghost predicate FailedCall(cfg: Config, s: State, t: State, me: nat)
  {
    exists steps :: Via(cfg, s, t, steps) && IsFailure(steps, me)
  }

  predicate IsFailure(steps: seq<Step>, me: nat)
  {
    |steps| >= 2 && steps[0] == Begin(me) && steps[|steps| - 1] == Abort(me) && Publish(me) !in steps
  }

  lemma UnpublishedOne(cfg: Config, s: State, step: Step, t: State, me: nat)
    requires Next(cfg, s, step, t) && step != Publish(me)
    ensures Unpublished(cfg, s, t, me)
  {
    ViaOne(cfg, s, step, t);
  }

  lemma UnpublishedLeads(cfg: Config, s: State, t: State, me: nat)
    requires Unpublished(cfg, s, t, me)
    ensures Leads(cfg, s, t)
  {
    var steps :| Via(cfg, s, t, steps) && Publish(me) !in steps;
  }

  /** What two stretches without a publication amount to. */
  lemma Follow(cfg: Config, s: State, t: State, u: State, me: nat)
    requires Unpublished(cfg, s, t, me) && Unpublished(cfg, t, u, me)
    ensures Unpublished(cfg, s, u, me) && Leads(cfg, s, u) && (s.served.Some? ==> u.served.Some?)
    ensures Undisturbed(s, u) ==> Undisturbed(s, t) && Undisturbed(t, u)
  {
    var steps :| Via(cfg, s, t, steps) && Publish(me) !in steps;
    var steps' :| Via(cfg, t, u, steps') && Publish(me) !in steps';
    ViaMore(cfg, s, t, u, steps, steps');
    UnpublishedLeads(cfg, s, t, me);
    UnpublishedLeads(cfg, t, u, me);
    Chain(cfg, s, t, u);
  }

  lemma GivingUpFails(cfg: Config, s: State, s1: State, s2: State, t: State, me: nat)
    requires Next(cfg, s, Begin(me), s1) && Unpublished(cfg, s1, s2, me) && Next(cfg, s2, Abort(me), t)
    ensures FailedCall(cfg, s, t, me)
  {
    var steps :| Via(cfg, s1, s2, steps) && Publish(me) !in steps;
    ViaOne(cfg, s, Begin(me), s1);
    ViaMore(cfg, s, s1, s2, [Begin(me)], steps);
    ViaOne(cfg, s2, Abort(me), t);
    ViaMore(cfg, s, s2, t, [Begin(me)] + steps, [Abort(me)]);
    assert IsFailure([Begin(me)] + steps + [Abort(me)], me);
  }

  // ----- a run in which freshness is lost without a write -----

  /** A configuration without client CAs whose certificate is its file. */
  const PLAIN := Config(false, (cert: string, key: string) => Some(cert), (ca: string) => None)

  function Mtimes(s: State): map<FileId, nat>
    requires CertFile in s.files && KeyFile in s.files
  {
    map[CertFile := s.files[CertFile].mtime, KeyFile := s.files[KeyFile].mtime]
  }

  function Pair(s: State): map<FileId, string>
    requires CertFile in s.files && KeyFile in s.files
  {
    map[CertFile := s.files[CertFile].content, KeyFile := s.files[KeyFile].content]
  }

  /** A call that has looked at both files and found a change. */
  lemma StatsAll(s: State, c: nat) returns (t: State)
    requires Reachable(PLAIN, s) && c !in s.calls && CertFile in s.files && KeyFile in s.files
    requires s.served.Some? ==> s.served.value.mtimes != Mtimes(s)
    ensures Reachable(PLAIN, t) && Leads(PLAIN, s, t) && t == s.(calls := s.calls[c := Call(Mtimes(s), true, map[])])
  {
    var m1 := map[CertFile := s.files[CertFile].mtime];
    t := With(s, s, Begin(c), c, Call(map[], false, map[]));
    t := With(s, t, Stat(c, CertFile), c, Call(m1, false, map[]));
    t := With(s, t, Stat(c, KeyFile), c, Call(Mtimes(s), false, map[]));
    t := With(s, t, Changed(c), c, Call(Mtimes(s), true, map[]));
  }

  /** A call that has also read them. */
  lemma ReadsAll(s: State, c: nat) returns (t: State)
    requires Reachable(PLAIN, s) && c !in s.calls && CertFile in s.files && KeyFile in s.files
    requires s.served.Some? ==> s.served.value.mtimes != Mtimes(s)
    ensures Reachable(PLAIN, t) && Leads(PLAIN, s, t) && t == s.(calls := s.calls[c := Call(Mtimes(s), true, Pair(s))])
  {
    t := StatsAll(s, c);
    t := With(s, t, Read(c, CertFile), c, Call(Mtimes(s), true, map[CertFile := s.files[CertFile].content]));
    t := With(s, t, Read(c, KeyFile), c, Call(Mtimes(s), true, Pair(s)));
  }

  /** One step of call c. */
  lemma With(s: State, t: State, step: Step, c: nat, call: Call) returns (t': State)
    requires t.files == s.files && t.clock == s.clock && t.served == s.served && t.calls - {c} == s.calls - {c}
    requires Reachable(PLAIN, t) && (t == s || Leads(PLAIN, s, t))
    requires Next(PLAIN, t, step, s.(calls := s.calls[c := call]))
    ensures t' == s.(calls := s.calls[c := call]) && Reachable(PLAIN, t') && Leads(PLAIN, s, t')
  {
    t' := s.(calls := s.calls[c := call]);
    ReachableStep(PLAIN, t, step, t');
    LeadsOne(PLAIN, t, step, t');
    if t != s { LeadsMore(PLAIN, s, t, t'); }
  }

  /** A call that has read everything publishes it. */
  lemma Publishes(s: State, c: nat) returns (t: State)
    requires Reachable(PLAIN, s) && c in s.calls && s.calls[c].loading && s.calls[c].contents.Keys == PLAIN.Files()
    ensures Reachable(PLAIN, t) && Leads(PLAIN, s, t) && Undisturbed(s, t) && t.calls == s.calls - {c}
    ensures t.served.Some? && t.served.value.mtimes == s.calls[c].mtimes
    ensures t.served.value.loaded.cert == s.calls[c].contents[CertFile]
  {
    var call := s.calls[c];
    t := s.(served := Some(Served(Load(PLAIN, call.contents).value, call.mtimes, call.contents)),
            calls := s.calls - {c});
    ReachableStep(PLAIN, s, Publish(c), t);
    LeadsOne(PLAIN, s, Publish(c), t);
  }

  lemma Writes(s: State, f: FileId, content: string) returns (t: State)
    requires Reachable(PLAIN, s)
    ensures Reachable(PLAIN, t) && t == s.(files := s.files[f := File(content, s.clock)], clock := s.clock + 1)
  {
    t := s.(files := s.files[f := File(content, s.clock)], clock := s.clock + 1);
    ReachableStep(PLAIN, s, Write(f, content), t);
  }

  /** A slow call has read the old certificate, and then the new one is written. */
  lemma SlowCall() returns (s: State)
    ensures Reachable(PLAIN, s) && s.served.None? && s.calls.Keys == {2} && s.files.Keys == PLAIN.Files()
    ensures s.files[CertFile] == File("new", 2)
    ensures s.calls[2].loading && s.calls[2].contents.Keys == s.calls[2].mtimes.Keys == PLAIN.Files()
    ensures s.calls[2].mtimes[CertFile] == 0 && s.calls[2].contents[CertFile] == "old"
  {
    assert IsRun(PLAIN, [START], []);
    s := Writes(START, CertFile, "old");
    s := Writes(s, KeyFile, "key");
    s := ReadsAll(s, 2);
    s := Writes(s, CertFile, "new");
  }

  /**
   A slow call that looked at the files before the last write publishes after a
   fresh reload: from before, when that reload begins, to after, no file is
   touched, and yet the old certificate is served in the end.
   */
  lemma FreshnessIsLost() returns (before: State, middle: State, after: State)
    ensures Reachable(PLAIN, before) && Leads(PLAIN, before, middle) && Leads(PLAIN, middle, after)
    ensures Undisturbed(before, after) && Loadable(PLAIN, after) && UpToDate(PLAIN, middle) && !UpToDate(PLAIN, after)
    ensures after.files[CertFile].content == "new" && after.served.Some? && after.served.value.loaded.cert == "old"
  {
    before := SlowCall();
    var s := ReadsAll(before, 1);
    middle := Publishes(s, 1);
    LeadsMore(PLAIN, before, s, middle);
    after := Publishes(middle, 2);
    BothThere(middle);
    BothThere(after);
  }

  /** With the plain configuration, two files with the recorded times are what UpToDate asks for. */
  lemma BothThere(s: State)
    requires Reachable(PLAIN, s) && s.files.Keys == PLAIN.Files() && s.served.Some?
    ensures Loadable(PLAIN, s) && (UpToDate(PLAIN, s) <==> s.served.value.mtimes == Mtimes(s))
  {
    ReachableInv(PLAIN, s);
    UpToDateIff(PLAIN, s);
    assert Contents(PLAIN, s).Keys == PLAIN.Files();
  }
}
