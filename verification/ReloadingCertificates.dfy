/** The object of runtime/servertls/servertls.go, proved to take only steps of CertReload. */
module ReloadingCertificates {
  import opened Wrappers
  import opened CertReload

  /**
   Other goroutines and file writers run between the steps of a method; the
   ghost state s follows them. me is the call a method is executing.
   */
  class ReloadingCertificate {
    const cfg: Config
    const minCheckInterval: int
    var cert: Option<string>
    var clientCAs: Option<string>
    var modTimes: map<FileId, nat>
    var lastChecked: int
    var files: map<FileId, File>
    ghost var s: State
    /** The times at which other calls have noted their checks. */
    ghost var noted: set<int>

    ghost predicate Valid()
      reads this
    {
      && Reachable(cfg, s) && s.files == files
      && (cert.None? <==> s.served.None?)
      && (s.served.Some? ==>
            var v := s.served.value; cert == Some(v.loaded.cert) && clientCAs == v.loaded.pool && modTimes == v.mtimes)
    }

    /** newReloadingCertificate, on files as they are in a state with nothing served yet. */
    static method Create(cfg: Config, minCheckInterval: int, files: map<FileId, File>, ghost s: State, now: int)
      returns (r: ReloadingCertificate, ok: bool)
      requires Reachable(cfg, s) && s.served.None? && s.files == files
      ensures fresh(r) && r.Valid() && (ok ==> r.cert.Some?) && Leads(cfg, s, r.s)
      ensures Undisturbed(s, r.s) ==> (ok <==> Loadable(cfg, r.s))
    {
      r := new ReloadingCertificate(cfg, minCheckInterval, files, s);
      ghost var at;
      ok, at := r.Reload(true, now);
      Chain(cfg, s, at, r.s);
      LeadsElapses(cfg, at, r.s);
      if ok && Undisturbed(s, r.s) {
        LeadsReachable(cfg, s, at);
        UpToDateIsFresh(cfg, at);
      }
    }

    constructor (cfg: Config, minCheckInterval: int, files: map<FileId, File>, ghost s: State)
      requires Reachable(cfg, s) && s.served.None? && s.files == files
      ensures Valid() && this.cfg == cfg && this.s == s && cert.None?
    {
      this.cfg, this.minCheckInterval, this.files, this.s := cfg, minCheckInterval, files, s;
      cert, clientCAs, modTimes, lastChecked, noted := None, None, map[], 0, {};
    }

    /** Any steps of writers and of other calls: OthersKeep proves what they keep, the body is one behaviour. */
    method Others(ghost me: nat)
      requires Valid()
      modifies this
      ensures Valid() && ByOthers(cfg, old(s), s, me) && Unpublished(cfg, old(s), s, me)
      ensures (me in s.calls) == (me in old(s).calls) && (me in s.calls ==> s.calls[me] == old(s).calls[me])
      ensures old(noted) <= noted && (lastChecked == old(lastChecked) || lastChecked in noted)
    {
      OthersDoNothing(cfg, s, me);
      OthersKeep(cfg, s, s, me);
    }

    /** A step of this call that touches no field. */
    ghost method Take(step: Step, s': State, me: nat)
      requires Valid() && Next(cfg, s, step, s') && s'.files == s.files && s'.served == s.served && step != Publish(me)
      modifies `s
      ensures Valid() && s == s' && Unpublished(cfg, old(s), s, me)
    {
      ReachableStep(cfg, s, step, s');
      UnpublishedOne(cfg, s, step, s', me);
      s := s';
    }

    ghost method Start() returns (me: nat)
      requires Valid()
      modifies `s
      ensures Valid() && me in s.calls && s.calls[me] == Call(map[], false, map[])
      ensures Next(cfg, old(s), Begin(me), s) && Unpublished(cfg, old(s), s, me) && Undisturbed(old(s), s)
    {
      me := Above(s.calls.Keys);
      Take(Begin(me), s.(calls := s.calls[me := Call(map[], false, map[])]), me);
    }

    static lemma {:induction false} Above(ids: set<nat>) returns (b: nat)
      ensures forall id :: id in ids ==> id < b
    {
      if ids == {} {
        b := 0;
      } else {
        var x :| x in ids;
        var c := Above(ids - {x});
        b := if x < c then c else x + 1;
        assert forall id :: id in ids ==> id == x || id in ids - {x};
      }
    }

    /** os.Stat of one file. */
    method StatFile(f: FileId, ghost me: nat) returns (mtime: Option<nat>)
      requires Valid() && me in s.calls && !s.calls[me].loading && f in cfg.Files()
      requires Before(f, s.calls[me].mtimes.Keys)
      modifies this
      ensures Valid() && me in s.calls && Unpublished(cfg, old(s), s, me)
      ensures old(noted) <= noted && (lastChecked == old(lastChecked) || lastChecked in noted)
      ensures mtime.Some? ==> s.calls[me] == old(s).calls[me].(mtimes := old(s).calls[me].mtimes[f := mtime.value])
      ensures mtime == if f in s.files then Some(s.files[f].mtime) else None
    {
      Others(me);
      if f !in files { return None; }
      mtime := Some(files[f].mtime);
      ghost var s1 := s;
      ghost var seen := s.calls[me].mtimes[f := files[f].mtime];
      Take(Stat(me, f), s.(calls := s.calls[me := s.calls[me].(mtimes := seen)]), me);
      Follow(cfg, old(s), s1, s, me);
    }

    /** Reading one file while loading. */
    method ReadFile(f: FileId, ghost me: nat) returns (content: Option<string>)
      requires Valid() && me in s.calls && s.calls[me].loading && f in cfg.Files()
      requires Before(f, s.calls[me].contents.Keys)
      modifies this
      ensures Valid() && me in s.calls && Unpublished(cfg, old(s), s, me)
      ensures old(noted) <= noted && (lastChecked == old(lastChecked) || lastChecked in noted)
      ensures content.Some? ==>
              s.calls[me] == old(s).calls[me].(contents := old(s).calls[me].contents[f := content.value])
      ensures content == if f in s.files then Some(s.files[f].content) else None
    {
      Others(me);
      if f !in files { return None; }
      content := Some(files[f].content);
      ghost var s1 := s;
      ghost var read := s.calls[me].contents[f := files[f].content];
      Take(Read(me, f), s.(calls := s.calls[me := s.calls[me].(contents := read)]), me);
      Follow(cfg, old(s), s1, s, me);
    }

    /** The stats of the certificate and of its key, in order. */
    method StatPair(ghost me: nat) returns (mtimes: Option<map<FileId, nat>>)
      requires Valid() && me in s.calls && s.calls[me] == Call(map[], false, map[])
      modifies this
      ensures Valid() && me in s.calls && Unpublished(cfg, old(s), s, me)
      ensures old(noted) <= noted && (lastChecked == old(lastChecked) || lastChecked in noted)
      ensures mtimes.Some? ==>
              mtimes.value.Keys == {CertFile, KeyFile} && s.calls[me] == Call(mtimes.value, false, map[])
      ensures Undisturbed(old(s), s) ==>
              if mtimes.Some? then TimesIn(s, mtimes.value) else !({CertFile, KeyFile} <= s.files.Keys)
    {
      var certTime := StatFile(CertFile, me);
      if certTime.None? { return None; }
      ghost var s1 := s;
      var keyTime := StatFile(KeyFile, me);
      Follow(cfg, old(s), s1, s, me);
      if keyTime.None? { return None; }
      mtimes := Some(map[CertFile := certTime.value, KeyFile := keyTime.value]);
    }

    /** And of the client CA bundle, when there is one. */
    method StatAll(ghost me: nat) returns (mtimes: Option<map<FileId, nat>>)
      requires Valid() && me in s.calls && s.calls[me] == Call(map[], false, map[])
      modifies this
      ensures Valid() && me in s.calls && Unpublished(cfg, old(s), s, me)
      ensures old(noted) <= noted && (lastChecked == old(lastChecked) || lastChecked in noted)
      ensures mtimes.Some? ==> mtimes.value.Keys == cfg.Files() && s.calls[me] == Call(mtimes.value, false, map[])
      ensures Undisturbed(old(s), s) ==>
              if mtimes.Some? then Current(cfg, s, mtimes.value) else !(cfg.Files() <= s.files.Keys)
    {
      mtimes := StatPair(me);
      if mtimes.None? || !cfg.clientCA { return; }
      ghost var s1 := s;
      var caTime := StatFile(CAFile, me);
      Follow(cfg, old(s), s1, s, me);
      if caTime.None? { return None; }
      mtimes := Some(mtimes.value[CAFile := caTime.value]);
    }

    /** LoadX509KeyPair reads the certificate and its key. */
    method LoadPair(ghost me: nat) returns (contents: Option<map<FileId, string>>)
      requires Valid() && me in s.calls && s.calls[me].loading && s.calls[me].contents == map[]
      modifies this
      ensures Valid() && me in s.calls && Unpublished(cfg, old(s), s, me)
      ensures old(noted) <= noted && (lastChecked == old(lastChecked) || lastChecked in noted)
      ensures contents.Some? ==>
              contents.value.Keys == {CertFile, KeyFile} && s.calls[me] == old(s).calls[me].(contents := contents.value)
      ensures Undisturbed(old(s), s) ==>
              if contents.Some? then ContentsIn(s, contents.value) else !({CertFile, KeyFile} <= s.files.Keys)
    {
      var certPEM := ReadFile(CertFile, me);
      if certPEM.None? { return None; }
      ghost var s1 := s;
      var keyPEM := ReadFile(KeyFile, me);
      Follow(cfg, old(s), s1, s, me);
      if keyPEM.None? { return None; }
      contents := Some(map[CertFile := certPEM.value, KeyFile := keyPEM.value]);
    }

    /** The client CA bundle is read after them. */
    method LoadAll(ghost me: nat) returns (contents: Option<map<FileId, string>>)
      requires Valid() && me in s.calls && s.calls[me].loading && s.calls[me].contents == map[]
      modifies this
      ensures Valid() && me in s.calls && Unpublished(cfg, old(s), s, me)
      ensures old(noted) <= noted && (lastChecked == old(lastChecked) || lastChecked in noted)
      ensures contents.Some? ==>
              contents.value.Keys == cfg.Files() && s.calls[me] == old(s).calls[me].(contents := contents.value)
      ensures Undisturbed(old(s), s) ==>
              if contents.Some? then contents.value == Contents(cfg, s) else !(cfg.Files() <= s.files.Keys)
    {
      contents := LoadPair(me);
      if contents.None? || !cfg.clientCA { return; }
      ghost var s1 := s;
      var caPEM := ReadFile(CAFile, me);
      Follow(cfg, old(s), s1, s, me);
      if caPEM.None? { return None; }
      contents := Some(contents.value[CAFile := caPEM.value]);
    }

    ghost predicate Due(force: bool, now: int)
      reads this
    {
      force || now - lastChecked >= minCheckInterval
    }

    /** The first half of reload: look at the files; one that is missing ends the call. */
    method LookOrGiveUp() returns (mtimes: Option<map<FileId, nat>>, ghost me: nat, ghost begun: State)
      requires Valid()
      modifies this
      ensures Valid() && Leads(cfg, old(s), s)
      ensures old(noted) <= noted && (lastChecked == old(lastChecked) || lastChecked in noted)
      ensures mtimes.None? ==> FailedCall(cfg, old(s), s, me) && !(Undisturbed(old(s), s) && Loadable(cfg, s))
      ensures mtimes.Some? ==> Next(cfg, old(s), Begin(me), begun) && Unpublished(cfg, begun, s, me) && me in s.calls
      ensures mtimes.Some? ==> mtimes.value.Keys == cfg.Files() && s.calls[me] == Call(mtimes.value, false, map[])
      ensures mtimes.Some? && Undisturbed(old(s), s) ==> Current(cfg, s, mtimes.value)
    {
      me := Start();
      begun := s;
      mtimes := StatAll(me);
      ghost var s2 := s;
      if mtimes.None? { GiveUp(me); } else { Others(me); }
      Follow(cfg, begun, s2, s, me);
      LeadsOne(cfg, old(s), Begin(me), begun);
      Chain(cfg, old(s), begun, s);
      if mtimes.None? { GivingUpFails(cfg, old(s), begun, s2, s, me); }
    }

    /**
     reload. A call that is not due does nothing. For a due call, at is the moment
     it compared the times and found nothing changed, or published: over files
     undisturbed until then it leaves them served there. What is served at the
     end may be another call's; a call that fails published nothing itself, and did
     not note a check, so the next call tries again.
     */
    method Reload(force: bool, now: int) returns (ok: bool, ghost at: State)
      requires Valid()
      modifies this
      ensures Valid() && Leads(cfg, old(s), at) && Leads(cfg, at, s)
      ensures !old(Due(force, now)) ==> ok && unchanged(this)
      ensures old(Due(force, now)) && ok ==>
              lastChecked == now && at.served.Some? && (Undisturbed(old(s), at) ==> UpToDate(cfg, at))
      ensures old(Due(force, now)) && Undisturbed(old(s), s) && Loadable(cfg, s) ==> ok
      ensures !ok ==> at == s && exists me :: FailedCall(cfg, old(s), s, me)
      ensures !ok ==> lastChecked == old(lastChecked) || lastChecked in noted
    {
      LeadsNowhere(cfg, s);
      if !force && now - lastChecked < minCheckInterval { return true, s; }
      var mtimes;
      ghost var me, begun;
      mtimes, me, begun := LookOrGiveUp();
      LeadsNowhere(cfg, s);
      if mtimes.None? { return false, s; }
      if cert.Some? && mtimes.value == modTimes {
        at := KeepServing(mtimes.value, now, me, old(s));
        return true, at;
      }
      ok := Renew(mtimes.value, now, me, old(s), begun);
      at := s;
      LeadsNowhere(cfg, s);
      ReachableInv(cfg, s);
      if ok { UpToDateIff(cfg, s); }
    }

    /** The changed branch. */
    method Renew(mtimes: map<FileId, nat>, now: int, ghost me: nat, ghost start: State, ghost begun: State)
      returns (ok: bool)
      requires Valid() && me in s.calls && s.calls[me] == Call(mtimes, false, map[]) && mtimes.Keys == cfg.Files()
      requires cert.None? || mtimes != modTimes
      requires Next(cfg, start, Begin(me), begun) && Unpublished(cfg, begun, s, me) && Leads(cfg, start, s)
      modifies this
      ensures Valid() && Leads(cfg, start, s) && (Undisturbed(start, s) ==> Undisturbed(start, old(s)))
      ensures ok ==> cert.Some? && lastChecked == now && modTimes == mtimes
      ensures !ok ==> FailedCall(cfg, start, s, me)
      ensures old(noted) <= noted && (!ok ==> lastChecked == old(lastChecked) || lastChecked in noted)
      ensures Undisturbed(start, s) && Loadable(cfg, s) ==> ok
    {
      ghost var s1 := s;
      Take(Changed(me), s.(calls := s.calls[me := s.calls[me].(loading := true)]), me);
      Follow(cfg, begun, s1, s, me);
      ghost var s2 := s;
      UnpublishedLeads(cfg, s1, s2, me);
      LeadsMore(cfg, start, s1, s2);
      ok := LoadAndPublish(mtimes, now, me, start, begun);
      Chain(cfg, start, s2, s);
    }

    /** The unchanged branch: the comparison, and a second lock section that records the time of the check. */
    method KeepServing(mtimes: map<FileId, nat>, now: int, ghost me: nat, ghost start: State) returns (ghost at: State)
      requires Valid() && cert.Some? && mtimes == modTimes && me in s.calls && s.calls[me] == Call(mtimes, false, map[])
      requires mtimes.Keys == cfg.Files()
      requires Leads(cfg, start, s) && (Undisturbed(start, s) ==> Current(cfg, s, mtimes))
      modifies this
      ensures Valid() && Leads(cfg, start, at) && Leads(cfg, at, s) && lastChecked == now
      ensures at.served.Some? && (Undisturbed(start, at) ==> UpToDate(cfg, at))
    {
      ghost var s1 := s;
      Take(Unchanged(me), s.(calls := s.calls - {me}), me);
      at := s;
      UnpublishedLeads(cfg, s1, at, me);
      LeadsMore(cfg, start, s1, at);
      ReachableInv(cfg, at);
      UpToDateIff(cfg, at);
      Others(me);
      UnpublishedLeads(cfg, at, s, me);
      lastChecked := now;
    }

    /** The loading: a file that cannot be read or parsed ends the call. */
    method LoadOrGiveUp(ghost me: nat, ghost start: State, ghost begun: State)
      returns (contents: map<FileId, string>, loaded: Option<Loaded>)
      requires Valid() && me in s.calls && s.calls[me].loading && s.calls[me].contents == map[]
      requires Next(cfg, start, Begin(me), begun) && Unpublished(cfg, begun, s, me)
      modifies this
      ensures Valid() && Unpublished(cfg, old(s), s, me)
      ensures old(noted) <= noted && (lastChecked == old(lastChecked) || lastChecked in noted)
      ensures loaded.None? ==> FailedCall(cfg, start, s, me) && !(Undisturbed(old(s), s) && Loadable(cfg, s))
      ensures loaded.Some? ==> contents.Keys == cfg.Files() && Load(cfg, contents) == loaded
      ensures loaded.Some? ==> me in s.calls && s.calls[me] == old(s).calls[me].(contents := contents)
    {
      var read := LoadAll(me);
      if read.Some? && Load(cfg, read.value).Some? { return read.value, Load(cfg, read.value); }
      ghost var s1 := s;
      Follow(cfg, begun, old(s), s1, me);
      GiveUp(me);
      GivingUpFails(cfg, start, begun, s1, s, me);
      Follow(cfg, old(s), s1, s, me);
      return map[], None;
    }

    /** The second half of reload: load everything, then publish it in one locked section. */
    method LoadAndPublish(mtimes: map<FileId, nat>, now: int, ghost me: nat, ghost start: State, ghost begun: State)
      returns (ok: bool)
      requires Valid() && me in s.calls && s.calls[me] == Call(mtimes, true, map[])
      requires Next(cfg, start, Begin(me), begun) && Unpublished(cfg, begun, s, me)
      modifies this
      ensures Valid() && Leads(cfg, old(s), s)
      ensures ok ==> cert.Some? && lastChecked == now && modTimes == mtimes
      ensures !ok ==> FailedCall(cfg, start, s, me)
      ensures old(noted) <= noted && (!ok ==> lastChecked == old(lastChecked) || lastChecked in noted)
      ensures Undisturbed(old(s), s) && Loadable(cfg, s) ==> ok
    {
      var contents, loaded := LoadOrGiveUp(me, start, begun);
      ghost var s1 := s;
      UnpublishedLeads(cfg, old(s), s1, me);
      if loaded.None? { return false; }
      Others(me);
      UnpublishedLeads(cfg, s1, s, me);
      LeadsMore(cfg, old(s), s1, s);
      ghost var s2 := s;
      cert, clientCAs, modTimes := Some(loaded.value.cert), loaded.value.pool, mtimes;
      lastChecked := now;
      ghost var s' := s.(served := Some(Served(loaded.value, mtimes, contents)), calls := s.calls - {me});
      ReachableStep(cfg, s, Publish(me), s');
      LeadsOne(cfg, s, Publish(me), s');
      s := s';
      LeadsMore(cfg, old(s), s2, s);
      return true;
    }

    ghost method GiveUp(me: nat)
      requires Valid() && me in s.calls
      modifies `s
      ensures Valid() && Next(cfg, old(s), Abort(me), s) && Unpublished(cfg, old(s), s, me)
      ensures s == old(s).(calls := old(s).calls - {me})
    {
      Take(Abort(me), s.(calls := s.calls - {me}), me);
    }

    /** The check both readers make before they take the lock again; others run in between. */
    method CheckFirst(now: int) returns (ghost at: State)
      requires Valid()
      modifies this
      ensures Valid() && Leads(cfg, old(s), at) && Leads(cfg, at, s)
      ensures old(Due(false, now)) && Undisturbed(old(s), s) && Loadable(cfg, s) ==> UpToDate(cfg, at)
      ensures old(Due(false, now)) && Undisturbed(old(s), s) && Loadable(cfg, s) && NoneBehind(old(s)) ==>
              UpToDate(cfg, s)
    {
      var ok;
      ok, at := Reload(false, now);
      ghost var s1 := s;
      LeadsMore(cfg, old(s), at, s1);
      ghost var none := Above(s.calls.Keys);
      Others(none);
      UnpublishedLeads(cfg, s1, s, none);
      Chain(cfg, at, s1, s);
      Chain(cfg, old(s), at, s);
      Chain(cfg, old(s), s1, s);
      if Undisturbed(old(s), s) && NoneBehind(old(s)) {
        StaysFresh(cfg, old(s), at);
        LeadsReachable(cfg, old(s), at);
        StaysFresh(cfg, at, s);
      }
    }

    /**
     GetCertificate: the certificate last published, current whenever the recorded
     times are. A due call over undisturbed files that load passes a moment at
     which they are served, and ends with them served if no call was behind.
     */
    method GetCertificate(now: int) returns (c: Option<string>, ghost at: State)
      requires Valid()
      modifies this
      ensures Valid() && Leads(cfg, old(s), at) && Leads(cfg, at, s)
      ensures c == cert && (old(cert).Some? ==> c.Some?)
      ensures UpToDate(cfg, s) ==>
              && Loadable(cfg, s) && CertFile in s.files && KeyFile in s.files
              && c.Some? && c == cfg.pair(s.files[CertFile].content, s.files[KeyFile].content)
      ensures old(Due(false, now)) && Undisturbed(old(s), s) && Loadable(cfg, s) ==> UpToDate(cfg, at)
      ensures old(Due(false, now)) && Undisturbed(old(s), s) && Loadable(cfg, s) && NoneBehind(old(s)) ==>
              UpToDate(cfg, s)
    {
      at := CheckFirst(now);
      c := cert;
      Chain(cfg, old(s), at, s);
      if UpToDate(cfg, s) {
        ServedFromFiles(cfg, s);
        LoadableIff(cfg, s);
      }
    }

    /** clientCAPool, in the same way. */
    method ClientCAPool(now: int) returns (pool: Option<string>, ghost at: State)
      requires Valid()
      modifies this
      ensures Valid() && Leads(cfg, old(s), at) && Leads(cfg, at, s) && pool == clientCAs
      ensures UpToDate(cfg, s) ==> Loadable(cfg, s)
      ensures UpToDate(cfg, s) && cfg.clientCA ==>
              CAFile in s.files && pool.Some? && pool == cfg.pool(s.files[CAFile].content)
      ensures UpToDate(cfg, s) && !cfg.clientCA ==> pool == None
      ensures old(Due(false, now)) && Undisturbed(old(s), s) && Loadable(cfg, s) ==> UpToDate(cfg, at)
      ensures old(Due(false, now)) && Undisturbed(old(s), s) && Loadable(cfg, s) && NoneBehind(old(s)) ==>
              UpToDate(cfg, s)
    {
      at := CheckFirst(now);
      pool := clientCAs;
      if UpToDate(cfg, s) {
        ServedFromFiles(cfg, s);
        LoadableIff(cfg, s);
      }
    }
  }
}
