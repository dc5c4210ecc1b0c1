/** The operations of cloudevent/cefilter/mongostore/store.go, as the events they leave in the log. */
module FilterStores {
  import opened Wrappers
  import opened Cdc
  import opened CdcService

  /** Other names keep what is stored under them. */
  ghost predicate OnlyTouches(before: seq<Event>, after: seq<Event>, n: Name)
  {
    before <= after && forall m :: m != n ==> BodyAt(after, |after|, m) == BodyAt(before, |before|, m)
  }

  lemma OneEventTouches(log: seq<Event>, e: Event, n: Name)
    requires (e.Put? || e.Drop?) && e.name == n
    ensures OnlyTouches(log, log + [e], n)
  {
    forall m | m != n ensures BodyAt(log + [e], |log + [e]|, m) == BodyAt(log, |log|, m) {
      BodyOfPrefix(log, e, |log|, m);
    }
  }

  /** What is stored with deletedAt set and every other field as it was. */
  function Deleted(was: Option<Body>): Option<Body>
  {
    match was
    case None => None
    case Some(Readable(doc)) => Some(Readable(Document(doc.hint, doc.metadata, doc.expr, true)))
    case Some(Unreadable(_, mendable)) => Some(Unreadable(true, mendable))
  }

  class FilterStore {
    const world: World

    constructor (world: World)
      ensures this.world == world
    {
      this.world := world;
    }

    /** What is stored under the name, whatever its deletedAt. */
    method Get(name: Name) returns (body: Option<Body>)
      ensures body == BodyAt(world.log, |world.log|, name)
    {
      body := BodyAt(world.log, |world.log|, name);
    }

    /**
     Makes the document active, also when it was soft-deleted; only a damage outside
     the fields it writes survives.
     */
    method Upsert(name: Name, hint: string, metadata: map<string, string>, expr: string)
      modifies world`log
      ensures OnlyTouches(old(world.log), world.log, name) && |world.log| == |old(world.log)| + 1
      ensures var e := world.log[|old(world.log)|];
              e.Put? && e.name == name && (e.lookup <==> BodyAt(old(world.log), |old(world.log)|, name).Some?)
      ensures var was, doc := BodyAt(old(world.log), |old(world.log)|, name), Document(hint, metadata, expr, false);
              if was.Some? && was.value.Unreadable? && !was.value.mendable then ActiveNow(world.log, name) == None
              else ActiveNow(world.log, name) == Some(doc)
    {
      var was := Get(name);
      var doc := Document(hint, metadata, expr, false);
      var body :=
        if was.Some? && was.value.Unreadable? && !was.value.mendable then Unreadable(false, false) else Readable(doc);
      OneEventTouches(world.log, Put(name, body, was.Some?), name);
      world.log := world.log + [Put(name, body, was.Some?)];
    }

    /** No active document is left under the name; nothing is written when there was none. */
    method SoftDelete(name: Name)
      modifies world`log
      ensures OnlyTouches(old(world.log), world.log, name) && ActiveNow(world.log, name) == None
      ensures var was := BodyAt(old(world.log), |old(world.log)|, name);
              && BodyAt(world.log, |world.log|, name) == Deleted(was)
              && |world.log| == |old(world.log)| + (if Deleted(was) == was then 0 else 1)
      ensures ActiveNow(old(world.log), name).Some? ==>
              && Legible(world.log, |world.log|, name)
              && BodyAt(world.log, |world.log|, name) ==
                 Some(Readable(ActiveNow(old(world.log), name).value.(deleted := true)))
      ensures BodyAt(old(world.log), |old(world.log)|, name).None? ==> world.log == old(world.log)
    {
      var was := Get(name);
      if was.None? { return; }
      var body := match was.value
        case Readable(doc) => Readable(doc.(deleted := true))
        case Unreadable(_, mendable) => Unreadable(true, mendable);
      if body == was.value { return; }
      OneEventTouches(world.log, Put(name, body, true), name);
      world.log := world.log + [Put(name, body, true)];
    }

    /** Nothing is left under the name. */
    method HardDelete(name: Name)
      modifies world`log
      ensures OnlyTouches(old(world.log), world.log, name) && BodyAt(world.log, |world.log|, name) == None
      ensures BodyAt(old(world.log), |old(world.log)|, name).None? ==> world.log == old(world.log)
    {
      var was := Get(name);
      if was.None? { return; }
      OneEventTouches(world.log, Drop(name), name);
      world.log := world.log + [Drop(name)];
    }
  }
}
