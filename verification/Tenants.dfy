/**
 Resolving a host to its tenant (`lib/tenant.ts`, `middleware.ts`). A visit looks
 in the shared cache, and when the tenant is not there waits for the gateway;
 other visits run meanwhile.
 */
module Tenants {
  import opened Wrappers
  import opened Texts
  import opened Hosts

  datatype Region = Cn | Intl

  datatype Account = Account(id: string, slug: string, region: Region, status: string)

  type Entries = map<string, Account>

  function Get(entries: Entries, slug: string): Option<Account> {
    if slug in entries then Some(entries[slug]) else None
  }

  /** A region that disagrees is refused; anything else is overwritten. */
  function Stored(entries: Entries, tenant: Account): Entries {
    if tenant.slug in entries && entries[tenant.slug].region != tenant.region then entries
    else entries[tenant.slug := tenant]
  }

  class TenantCache {
    var entries: Entries

    constructor ()
      ensures entries == map[]
    {
      entries := map[];
    }

    method Lookup(slug: string) returns (tenant: Option<Account>)
      ensures tenant == Get(entries, slug)
    {
      if slug in entries { return Some(entries[slug]); }
      return None;
    }

    method Store(tenant: Account) returns (stored: bool)
      modifies this
      ensures entries == Stored(old(entries), tenant)
      ensures stored <==>
                && entries[tenant.slug] == tenant
                && (tenant.slug in old(entries) ==> old(entries)[tenant.slug].region == tenant.region)
    {
      var existing := Lookup(tenant.slug);
      if existing.Some? && existing.value.region != tenant.region { return false; }
      entries := entries[tenant.slug := tenant];
      return true;
    }
  }

  /** `resolve` up to its `await`: an answer, or the key to ask the gateway for. */
  datatype Opening = Answered(tenant: Option<Account>) | Asks(key: string)

  function Key(slug: string): string {
    Fold(Trim(slug))
  }

  function Opened(entries: Entries, slug: string): Opening {
    var key := Key(slug);
    if key == "" then Answered(None)
    else if key in entries then Answered(Some(entries[key]))
    else Asks(key)
  }

  /** `resolve` after its `await`: the cache as it stands then, and the result. */
  function Closed(entries: Entries, key: string, reply: Option<Account>): (Entries, Option<Account>) {
    if reply.None? || reply.value.slug != key then (entries, None)
    else
      var entries' := Stored(entries, reply.value);
      (entries', if key in entries' then Some(entries'[key]) else reply)
  }

  class TenantDirectory {
    const cache: TenantCache

    constructor (cache: TenantCache)
      ensures this.cache == cache
    {
      this.cache := cache;
    }

    method Open(slug: string) returns (opening: Opening)
      ensures opening == Opened(cache.entries, slug)
    {
      var key := Key(slug);
      if key == "" { return Answered(None); }
      var cached := cache.Lookup(key);
      if cached.Some? { return Answered(cached); }
      return Asks(key);
    }

    method Close(key: string, reply: Option<Account>) returns (tenant: Option<Account>)
      modifies cache
      ensures (cache.entries, tenant) == Closed(old(cache.entries), key, reply)
    {
      if reply.None? { return None; }
      if reply.value.slug != key { return None; }
      var stored := cache.Store(reply.value);
      tenant := cache.Lookup(key);
      if tenant.None? { tenant := reply; }
    }
  }

  // ---- Visits, interleaved ----

  datatype Visit = Visit(host: string, key: string)

  datatype Outcome = Outcome(host: string, decision: Decision, tenant: Option<Account>)

  datatype World = World(entries: Entries, waiting: map<nat, Visit>, next: nat, outcomes: seq<Outcome>)

  /** A visit arrives; or the gateway answers one that waits, with whatever it likes, or fails it. */
  datatype Event = Arrive(host: string) | Reply(visit: nat, tenant: Option<Account>) | Fail(visit: nat)

  function SlugOf(tenant: Option<Account>): Option<string> {
    if tenant.None? then None else Some(tenant.value.slug)
  }

  function Decided(host: string, tenant: Option<Account>, base: string): Outcome {
    Outcome(host, DecideTenantRoute(ClassifyHost(host, base), SlugOf(tenant)), tenant)
  }

  function Arrived(w: World, host: string, base: string): World {
    var c := ClassifyHost(host, base);
    if !c.Tenant? then w.(outcomes := w.outcomes + [Decided(host, None, base)])
    else
      match Opened(w.entries, c.slug)
      case Answered(tenant) => w.(outcomes := w.outcomes + [Decided(host, tenant, base)])
      case Asks(key) => w.(waiting := w.waiting[w.next := Visit(host, key)], next := w.next + 1)
  }

  function Step(w: World, e: Event, base: string): World {
    match e
    case Arrive(host) => Arrived(w, host, base)
    case Reply(i, reply) =>
      if i !in w.waiting then w
      else
        var visit := w.waiting[i];
        var (entries, tenant) := Closed(w.entries, visit.key, reply);
        w.(entries := entries, waiting := w.waiting - {i}, outcomes := w.outcomes + [Decided(visit.host, tenant, base)])
    case Fail(i) => w.(waiting := w.waiting - {i})
  }

  function Run(w: World, events: seq<Event>, base: string): World
    decreases |events|
  {
    if events == [] then w else Run(Step(w, events[0], base), events[1..], base)
  }

  const EMPTY := World(map[], map[], 0, [])

  // ---- What every interleaving keeps ----

  ghost predicate Keyed(entries: Entries) {
    forall k <- entries :: entries[k].slug == k
  }

  /** Later knowledge: nothing known is forgotten, and no region has moved. */
  ghost predicate Extends(later: Entries, earlier: Entries) {
    forall k <- earlier :: k in later && later[k].region == earlier[k].region
  }

  /** A tenant that was handed out is in the cache, under its own slug, in the region it was handed out with. */
  ghost predicate Vouched(o: Outcome, entries: Entries) {
    o.tenant.Some? ==> o.tenant.value.slug in entries && entries[o.tenant.value.slug].region == o.tenant.value.region
  }

  /** A visit waits for the tenant its host names. */
  ghost predicate WaitsForItsTenant(v: Visit, base: string) {
    ClassifyHost(v.host, base).Tenant? && v.key == Key(ClassifyHost(v.host, base).slug) && v.key != ""
  }

  ghost predicate Inv(w: World, base: string) {
    && Keyed(w.entries)
    && (forall o <- w.outcomes :: Vouched(o, w.entries) && o == Decided(o.host, o.tenant, base))
    && (forall i <- w.waiting :: i < w.next && WaitsForItsTenant(w.waiting[i], base))
  }

  /** Closing a visit forgets nothing, moves no region, and hands out only what the cache then says. */
  lemma ClosingExtends(entries: Entries, key: string, reply: Option<Account>)
    requires Keyed(entries)
    ensures var (entries', tenant) := Closed(entries, key, reply);
            && Keyed(entries') && Extends(entries', entries)
            && (tenant.Some? ==> tenant.value.slug == key && key in entries' && entries'[key] == tenant.value)
  {
  }

  lemma HandingOutKeeps(outcomes: seq<Outcome>, before: Entries, after: Entries, o: Outcome, base: string)
    requires Extends(after, before) && Vouched(o, after) && o == Decided(o.host, o.tenant, base)
    requires forall p <- outcomes :: Vouched(p, before) && p == Decided(p.host, p.tenant, base)
    ensures forall p <- outcomes + [o] :: Vouched(p, after) && p == Decided(p.host, p.tenant, base)
  {
    forall p | p in outcomes + [o] ensures Vouched(p, after) && p == Decided(p.host, p.tenant, base) {
      if p in outcomes { assert Vouched(p, before); } else { assert p == o; }
    }
  }

  lemma ArrivalKeeps(w: World, host: string, base: string)
    requires Inv(w, base)
    ensures Inv(Arrived(w, host, base), base) && Extends(Arrived(w, host, base).entries, w.entries)
  {
    var c := ClassifyHost(host, base);
    if !c.Tenant? {
      HandingOutKeeps(w.outcomes, w.entries, w.entries, Decided(host, None, base), base);
    } else if Opened(w.entries, c.slug).Answered? {
      var tenant := Opened(w.entries, c.slug).tenant;
      HandingOutKeeps(w.outcomes, w.entries, w.entries, Decided(host, tenant, base), base);
    }
  }

  lemma StepKeeps(w: World, e: Event, base: string)
    requires Inv(w, base)
    ensures Inv(Step(w, e, base), base)
    ensures Extends(Step(w, e, base).entries, w.entries)
  {
    match e
    case Arrive(host) => ArrivalKeeps(w, host, base);
    case Reply(i, reply) =>
      if i in w.waiting {
        var visit := w.waiting[i];
        var (entries, tenant) := Closed(w.entries, visit.key, reply);
        ClosingExtends(w.entries, visit.key, reply);
        HandingOutKeeps(w.outcomes, w.entries, entries, Decided(visit.host, tenant, base), base);
      }
    case Fail(_) =>
  }

  /** Whatever the gateway answers and in whatever order, a slug keeps the region it was first stored with. */
  lemma {:induction false} RegionsNeverMove(w: World, events: seq<Event>, base: string)
    requires Inv(w, base)
    ensures Inv(Run(w, events, base), base)
    ensures Extends(Run(w, events, base).entries, w.entries)
    decreases |events|
  {
    if events != [] {
      StepKeeps(w, events[0], base);
      RegionsNeverMove(Step(w, events[0], base), events[1..], base);
    }
  }

  /** Two visits that were given a tenant of the same slug were given the same region. */
  lemma ResultsAgreeOnRegion(events: seq<Event>, base: string, a: Outcome, b: Outcome)
    requires var outcomes := Run(EMPTY, events, base).outcomes; a in outcomes && b in outcomes
    requires a.tenant.Some? && b.tenant.Some? && a.tenant.value.slug == b.tenant.value.slug
    ensures a.tenant.value.region == b.tenant.value.region
  {
    RegionsNeverMove(EMPTY, events, base);
    var entries := Run(EMPTY, events, base).entries;
    assert Vouched(a, entries) && Vouched(b, entries);
  }

  /** A visit let through to a tenant named that tenant's own host: on its first reading if that settled it, and
      on the second otherwise. */
  lemma VisitsReachTheirOwnTenant(events: seq<Event>, base: string, o: Outcome)
    requires o in Run(EMPTY, events, base).outcomes && o.decision.RouteTenant?
    ensures o.tenant.Some? && IsLabel(o.tenant.value.slug)
    ensures Name(Name(o.host)) == HostOf(o.tenant.value.slug, base)
    ensures Name(o.host) == HostOf(o.tenant.value.slug, base) <==> ReadOnce(o.host)
  {
    RegionsNeverMove(EMPTY, events, base);
    var c := ClassifyHost(o.host, base);
    assert c.Tenant? && SlugOf(o.tenant) == Some(c.slug);
    TenantExactlyWhen(o.host, base, c.slug);
    NameIsOwnHostIffReadOnce(o.host, base);
  }

  /** With one port at most, being let through means having asked for exactly `slug.base`. */
  lemma OnlyTheOwnHostIsRouted(events: seq<Event>, base: string, o: Outcome)
    requires o in Run(EMPTY, events, base).outcomes && o.decision.RouteTenant? && Simple(o.host)
    ensures o.tenant.Some? && Name(o.host) == HostOf(o.tenant.value.slug, base)
  {
    SimpleHostsAreReadOnce(o.host);
    VisitsReachTheirOwnTenant(events, base, o);
  }

  /** Visits to hosts of the same name that are let through end at one slug in one region, however they interleaved. */
  lemma SameHostSameTenant(events: seq<Event>, base: string, a: Outcome, b: Outcome)
    requires var outcomes := Run(EMPTY, events, base).outcomes; a in outcomes && b in outcomes
    requires a.decision.RouteTenant? && b.decision.RouteTenant? && Name(a.host) == Name(b.host)
    ensures a.tenant.Some? && b.tenant.Some?
    ensures a.tenant.value.slug == b.tenant.value.slug && a.tenant.value.region == b.tenant.value.region
  {
    VisitsReachTheirOwnTenant(events, base, a);
    VisitsReachTheirOwnTenant(events, base, b);
    OneSlugPerHost(a.tenant.value.slug, b.tenant.value.slug, base);
    ResultsAgreeOnRegion(events, base, a, b);
  }

  lemma OneSlugPerHost(s: string, t: string, base: string)
    requires HostOf(s, base) == HostOf(t, base)
    ensures s == t
  {
    assert |s| == |t|;
    assert HostOf(s, base)[..|s|] == s && HostOf(t, base)[..|t|] == t;
  }

  // ---- Who is let through ----

  /** One visit was answered, and nothing else happened. */
  ghost predicate AnsweredOne(w: World, w': World, o: Outcome) {
    w' == w.(outcomes := w.outcomes + [o])
  }

  /** A visit to a tenant's host: cached or not, and under which key. */
  ghost predicate TenantArrives(w: World, w': World, host: string, slug: string) {
    var key := Fold(Trim(slug));
    if key == "" then AnsweredOne(w, w', Outcome(host, RouteNotFound, None))
    else if key in w.entries then
      AnsweredOne(w, w', Outcome(host, if w.entries[key].slug == slug then RouteTenant else RouteNotFound,
                                 Some(w.entries[key])))
    else w' == w.(waiting := w.waiting[w.next := Visit(host, key)], next := w.next + 1)
  }

  /** What an arrival leads to: an apex host is routed to the apex and one that is nobody's nowhere; a tenant's host is
      routed at once if the tenant is cached, and otherwise waits for the gateway. */
  lemma ArrivalsAreAnswered(w: World, host: string, base: string)
    ensures var c, w' := ClassifyHost(host, base), Step(w, Arrive(host), base);
            && (c.Apex? ==> AnsweredOne(w, w', Outcome(host, RouteApex, None)))
            && (c.Unknown? ==> AnsweredOne(w, w', Outcome(host, RouteNotFound, None)))
            && (c.Tenant? ==> TenantArrives(w, w', host, c.slug))
  {
    var c := ClassifyHost(host, base);
    if c.Tenant? { TenantArrivalIs(w, host, base, c); }
  }

  lemma TenantArrivalIs(w: World, host: string, base: string, c: Classification)
    requires c == ClassifyHost(host, base) && c.Tenant?
    ensures TenantArrives(w, Arrived(w, host, base), host, c.slug)
  {
  }

  /** The slug of a tenant's host carries no blank that the cache's key would not have. */
  ghost predicate PlainSlug(host: string, base: string) {
    var c := ClassifyHost(host, base);
    c.Tenant? && Fold(Trim(c.slug)) == c.slug
  }

  lemma SlugIsNotEmpty(host: string, base: string)
    requires ClassifyHost(host, base).Tenant?
    ensures ClassifyHost(host, base).slug != ""
  {
    TenantExactlyWhen(host, base, ClassifyHost(host, base).slug);
  }

  /** Hosts without brackets and blanks and with at most one colon always have such a slug. */
  lemma SimpleHostsHavePlainSlugs(host: string, base: string)
    requires Simple(host) && ClassifyHost(host, base).Tenant?
    ensures PlainSlug(host, base)
  {
    var slug, name := ClassifyHost(host, base).slug, Name(host);
    SimpleHostsAreReadOnce(host);
    NameIsOwnHostIffReadOnce(host, base);
    SimpleName(host);
    FoldOfLowered(StripPort(host));
    assert slug <= name;
    PlainFront(slug, name);
  }

  lemma PlainFront(front: string, s: string)
    requires front <= s && Lowered(s) && forall c <- s :: !IsSpace(c)
    ensures Fold(Trim(front)) == front
  {
    forall c | c in front ensures !IsSpace(c) { assert c in s; }
    UnspacedIsTrimmed(front);
    FoldOfLowered(front);
  }

  /** A visit to a tenant that is cached is let through at once, with what the cache says. */
  lemma CachedTenantIsRouted(w: World, host: string, base: string)
    requires Inv(w, base) && PlainSlug(host, base) && ClassifyHost(host, base).slug in w.entries
    ensures var tenant := w.entries[ClassifyHost(host, base).slug];
            AnsweredOne(w, Step(w, Arrive(host), base), Outcome(host, RouteTenant, Some(tenant)))
  {
    ArrivalsAreAnswered(w, host, base);
    SlugIsNotEmpty(host, base);
  }

  /** What the gateway's answer to a waiting visit leads to: an account of the slug asked for is let through, with the
      account as answered, or as cached if the regions disagree; anything else is not found and leaves the cache alone.
      */
  lemma RepliesAreAnswered(w: World, i: nat, reply: Option<Account>, base: string)
    requires Inv(w, base) && i in w.waiting
    ensures var v, w' := w.waiting[i], Step(w, Reply(i, reply), base);
            && w'.waiting == w.waiting - {i} && w'.next == w.next
            && if reply.Some? && reply.value.slug == v.key then
                 var conflict := v.key in w.entries && w.entries[v.key].region != reply.value.region;
                 && w'.entries == (if conflict then w.entries else w.entries[v.key := reply.value])
                 && w'.outcomes == w.outcomes + [Outcome(v.host, if PlainSlug(v.host, base) then RouteTenant
                                                                 else RouteNotFound,
                                                         Some(if conflict then w.entries[v.key] else reply.value))]
               else
                 && w'.entries == w.entries
                 && w'.outcomes == w.outcomes + [Outcome(v.host, RouteNotFound, None)]
  {
    assert WaitsForItsTenant(w.waiting[i], base);
  }

  /** How many visits of a run the gateway failed. */
  function Failed(w: World, events: seq<Event>, base: string): nat
    decreases |events|
  {
    if events == [] then 0
    else (if events[0].Fail? && events[0].visit in w.waiting then 1 else 0)
         + Failed(Step(w, events[0], base), events[1..], base)
  }

  function Arrivals(events: seq<Event>): nat {
    if events == [] then 0 else (if events[0].Arrive? then 1 else 0) + Arrivals(events[1..])
  }

  function Handled(w: World): nat {
    |w.outcomes| + |w.waiting|
  }

  lemma ArrivalIsAccountedFor(w: World, host: string, base: string)
    requires Inv(w, base)
    ensures Handled(Step(w, Arrive(host), base)) == Handled(w) + 1
  {
    ArrivalsAreAnswered(w, host, base);
    assert w.next !in w.waiting;
  }

  lemma ReplyIsAccountedFor(w: World, i: nat, reply: Option<Account>, base: string)
    requires Inv(w, base)
    ensures Handled(Step(w, Reply(i, reply), base)) == Handled(w)
  {
    if i in w.waiting {
      RepliesAreAnswered(w, i, reply, base);
      OneFewerWaits(w.waiting, i);
    }
  }

  lemma FailureIsAccountedFor(w: World, i: nat, base: string)
    ensures Handled(Step(w, Fail(i), base)) == Handled(w) - if i in w.waiting then 1 else 0
  {
    if i in w.waiting { OneFewerWaits(w.waiting, i); } else { assert w.waiting - {i} == w.waiting; }
  }

  lemma StepAccountsForVisits(w: World, e: Event, base: string)
    requires Inv(w, base)
    ensures Handled(Step(w, e, base)) ==
            Handled(w) + (if e.Arrive? then 1 else 0) - if e.Fail? && e.visit in w.waiting then 1 else 0
  {
    match e
    case Arrive(host) => ArrivalIsAccountedFor(w, host, base);
    case Reply(i, reply) => ReplyIsAccountedFor(w, i, reply, base);
    case Fail(i) => FailureIsAccountedFor(w, i, base);
  }

  lemma OneFewerWaits(waiting: map<nat, Visit>, i: nat)
    requires i in waiting
    ensures |waiting - {i}| == |waiting| - 1
  {
    assert (waiting - {i})[i := waiting[i]] == waiting;
  }

  lemma {:induction false} RunAccountsForVisits(w: World, events: seq<Event>, base: string)
    requires Inv(w, base)
    ensures Handled(Run(w, events, base)) + Failed(w, events, base) == Handled(w) + Arrivals(events)
    decreases |events|
  {
    if events != [] {
      StepKeeps(w, events[0], base);
      StepAccountsForVisits(w, events[0], base);
      RunAccountsForVisits(Step(w, events[0], base), events[1..], base);
    }
  }

  /** Under every interleaving every visit is answered once, waits, or was failed by the gateway. */
  lemma EveryVisitIsAccountedFor(events: seq<Event>, base: string)
    ensures var w := Run(EMPTY, events, base);
            |w.outcomes| + |w.waiting| + Failed(EMPTY, events, base) == Arrivals(events)
  {
    RunAccountsForVisits(EMPTY, events, base);
  }

  /** Once a tenant was let through, every later visit to a host of the same name is let through at once, to the same
      tenant in the same region. */
  lemma OnceRoutedAlwaysRouted(events: seq<Event>, base: string, o: Outcome, host: string)
    requires o in Run(EMPTY, events, base).outcomes && o.decision.RouteTenant?
    requires Name(host) == Name(o.host) && PlainSlug(host, base)
    ensures var w := Run(EMPTY, events, base); var slug := ClassifyHost(host, base).slug;
            && o.tenant.Some? && o.tenant.value.slug == slug
            && slug in w.entries && w.entries[slug].region == o.tenant.value.region
            && AnsweredOne(w, Step(w, Arrive(host), base), Outcome(host, RouteTenant, Some(w.entries[slug])))
  {
    var w := Run(EMPTY, events, base);
    RegionsNeverMove(EMPTY, events, base);
    assert Vouched(o, w.entries) && o == Decided(o.host, o.tenant, base);
    CachedTenantIsRouted(w, host, base);
  }
}
