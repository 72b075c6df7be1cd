/**
 Which tenant a host name belongs to (`lib/host.ts`). A port is cut off once to
 get the name and, on the way to the slug, a second time.
 */
module Hosts {
  import opened Wrappers
  import opened Texts

  function IndexOf(s: string, c: char): (k: int)
    ensures -1 <= k < |s|
    ensures k >= 0 ==> s[k] == c && c !in s[..k]
    ensures k < 0 ==> c !in s
  {
    if s == "" then -1
    else if s[0] == c then 0
    else
      var rest := IndexOf(s[1..], c);
      assert rest >= 0 ==> s[..rest + 1] == [s[0]] + s[1..][..rest];
      if rest < 0 then -1 else rest + 1
  }

  function LastIndexOf(s: string, c: char): (k: int)
    ensures -1 <= k < |s|
    ensures k >= 0 ==> s[k] == c
    ensures forall i | k < i < |s| :: s[i] != c
  {
    if s == "" then -1
    else if s[|s| - 1] == c then |s| - 1
    else LastIndexOf(s[..|s| - 1], c)
  }

  function StripPort(host: string): string {
    var trimmed := Trim(host);
    var end := IndexOf(trimmed, ']');
    if trimmed != "" && trimmed[0] == '[' && end != -1 then trimmed[1..end]
    else
      var colon := LastIndexOf(trimmed, ':');
      if colon > 0 && IsNumber(trimmed[colon + 1..]) then trimmed[..colon] else trimmed
  }

  function Name(host: string): string {
    Fold(StripPort(host))
  }

  const DEFAULT_BASE_DOMAIN := "vodoge.com"

  function NormalizeBaseDomain(baseDomain: string): string {
    var base := Fold(Trim(baseDomain));
    if base == "" then DEFAULT_BASE_DOMAIN else base
  }

  predicate EndsWith(s: string, suffix: string) {
    |suffix| <= |s| && s[|s| - |suffix|..] == suffix
  }

  predicate IsApex(name: string, base: string) {
    name == base || name == "www." + base
  }

  /** The label in front of the base domain, if the name is one label and the base domain. */
  function SlugOfName(name: string, base: string): Option<string> {
    var suffix := "." + base;
    if name == "" || IsApex(name, base) || !EndsWith(name, suffix) then None
    else
      var slug := name[..|name| - |suffix|];
      if slug == "" || '.' in slug then None else Some(slug)
  }

  function SlugFromHost(host: string, baseDomain: string): Option<string> {
    SlugOfName(Name(host), NormalizeBaseDomain(baseDomain))
  }

  datatype Classification = Apex(host: string) | Tenant(host: string, slug: string) | Unknown(host: string)

  function ClassifyHost(host: string, baseDomain: string): Classification {
    var normalized := Name(host);
    var base := NormalizeBaseDomain(baseDomain);
    if normalized == "" then Unknown(normalized)
    else if IsApex(normalized, base) then Apex(normalized)
    else
      var extracted := SlugFromHost(normalized, base);
      if extracted.None? then Unknown(normalized) else Tenant(normalized, extracted.value)
  }

  datatype Decision = RouteApex | RouteNotFound | RouteTenant

  function DecideTenantRoute(c: Classification, slug: Option<string>): Decision {
    if c.Apex? then RouteApex
    else if !c.Tenant? then RouteNotFound
    else if slug.None? || slug.value != c.slug then RouteNotFound
    else RouteTenant
  }

  // ---- What a tenant's host is ----

  ghost predicate IsLabel(slug: string) {
    slug != "" && '.' !in slug && slug != "www"
  }

  /** The host a tenant owns. */
  function HostOf(slug: string, baseDomain: string): string {
    slug + "." + NormalizeBaseDomain(baseDomain)
  }

  /** The name has nothing left for a second reading to cut off. */
  predicate ReadOnce(host: string) {
    StripPort(Name(host)) == Name(host)
  }

  ghost predicate Lowered(s: string) {
    forall i | 0 <= i < |s| :: Lower(s[i]) == s[i]
  }

  lemma FoldOfLowered(s: string)
    ensures Lowered(Fold(s))
    ensures Lowered(s) ==> Fold(s) == s
  {
  }

  lemma StripPortKeepsCase(host: string)
    requires Lowered(host)
    ensures Lowered(StripPort(host))
  {
    TrimKeepsCase(host);
  }

  lemma TrimKeepsCase(s: string)
    requires Lowered(s)
    ensures Lowered(Trim(s))
  {
    TrimStartIsSuffix(s);
    TrimEndIsPrefix(TrimStart(s));
    forall i | 0 <= i < |Trim(s)| ensures Lower(Trim(s)[i]) == Trim(s)[i] {
      assert Trim(s)[i] in TrimStart(s);
    }
  }

  lemma TightIsTrimmed(s: string)
    requires s != "" && !IsSpace(s[0]) && !IsSpace(s[|s| - 1])
    ensures Trim(s) == s
    ensures Trim(Fold(s)) == Fold(s)
  {
    assert TrimStart(s) == s && TrimEnd(s) == s;
    var t := Fold(s);
    assert t[0] == Lower(s[0]) && t[|s| - 1] == Lower(s[|s| - 1]);
    assert TrimStart(t) == t && TrimEnd(t) == t;
  }

  lemma NormalIsKept(base: string)
    requires base != "" && !IsSpace(base[0]) && !IsSpace(base[|base| - 1]) && Lowered(base)
    ensures NormalizeBaseDomain(base) == base
  {
    TightIsTrimmed(base);
    FoldOfLowered(base);
  }

  lemma TrimIsTight(s: string)
    ensures Trim(s) != "" ==> !IsSpace(Trim(s)[0]) && !IsSpace(Trim(s)[|Trim(s)| - 1])
  {
    TrimStartIsSuffix(s);
    TrimEndIsPrefix(TrimStart(s));
  }

  lemma BaseIsNormalizedOnce(baseDomain: string)
    ensures NormalizeBaseDomain(NormalizeBaseDomain(baseDomain)) == NormalizeBaseDomain(baseDomain)
    ensures NormalizeBaseDomain(baseDomain) != ""
  {
    var trimmed, base := Trim(baseDomain), NormalizeBaseDomain(baseDomain);
    if trimmed != "" {
      TrimIsTight(baseDomain);
      FoldOfLowered(trimmed);
      assert base[0] == Lower(trimmed[0]) && base[|base| - 1] == Lower(trimmed[|base| - 1]);
    }
    NormalIsKept(base);
  }

  lemma SlugOfOwnName(slug: string, base: string)
    requires IsLabel(slug)
    ensures SlugOfName(slug + "." + base, base) == Some(slug)
  {
    var suffix := "." + base;
    var name := slug + "." + base;
    assert name == slug + suffix && name[|slug|..] == suffix && name[..|slug|] == slug;
    var www := "www." + base;
    assert www[..|www| - |suffix|] == "www";
  }

  lemma NameOfSlug(name: string, base: string)
    requires SlugOfName(name, base).Some?
    ensures var slug := SlugOfName(name, base).value;
            IsLabel(slug) && name == slug + "." + base
  {
    var slug := SlugOfName(name, base).value;
    var suffix := "." + base;
    assert name == name[..|name| - |suffix|] + name[|name| - |suffix|..];
    assert name == slug + suffix == slug + "." + base;
  }

  lemma SlugIsTheFront(name: string, base: string, slug: string)
    ensures SlugOfName(name, base) == Some(slug) <==> IsLabel(slug) && name == slug + "." + base
  {
    if SlugOfName(name, base) == Some(slug) { NameOfSlug(name, base); }
    if IsLabel(slug) { SlugOfOwnName(slug, base); }
  }

  /** A host is a tenant's exactly when its name, read once more, is the tenant's own host and it is not an apex. */
  lemma TenantExactlyWhen(host: string, baseDomain: string, slug: string)
    ensures ClassifyHost(host, baseDomain) == Tenant(Name(host), slug) <==>
            && IsLabel(slug) && Name(Name(host)) == HostOf(slug, baseDomain)
            && !IsApex(Name(host), NormalizeBaseDomain(baseDomain)) && Name(host) != ""
  {
    var base := NormalizeBaseDomain(baseDomain);
    BaseIsNormalizedOnce(baseDomain);
    SlugIsTheFront(Name(Name(host)), base, slug);
  }

  /** A host classified as a tenant's has that tenant's own host as its name if and only if one reading was enough. */
  lemma NameIsOwnHostIffReadOnce(host: string, baseDomain: string)
    requires ClassifyHost(host, baseDomain).Tenant?
    ensures Name(host) == HostOf(ClassifyHost(host, baseDomain).slug, baseDomain) <==> ReadOnce(host)
  {
    var c := ClassifyHost(host, baseDomain);
    TenantExactlyWhen(host, baseDomain, c.slug);
    FoldOfLowered(StripPort(host));
    StripPortKeepsCase(Name(host));
    FoldOfLowered(StripPort(Name(host)));
  }

  /** The two readers agree on every host that one reading settles. */
  lemma ReadersAgree(host: string, baseDomain: string, slug: string)
    requires ReadOnce(host)
    ensures SlugFromHost(host, baseDomain) == Some(slug) <==> ClassifyHost(host, baseDomain) == Tenant(Name(host), slug)
  {
    var base := NormalizeBaseDomain(baseDomain);
    FoldOfLowered(StripPort(host));
    SlugIsTheFront(Name(host), base, slug);
    TenantExactlyWhen(host, baseDomain, slug);
  }

  /** They take a host for the same tenant's, or both for nobody's. */
  ghost predicate SameAnswer(host: string, baseDomain: string) {
    forall slug ::
      SlugFromHost(host, baseDomain) == Some(slug) <==> ClassifyHost(host, baseDomain) == Tenant(Name(host), slug)
  }

  /** A host that either reader takes for a tenant's is taken for the same one's by both if and only if one reading
      settles it; a host that neither does is agreed on anyway. */
  lemma ReadersAgreeIffReadOnce(host: string, baseDomain: string)
    ensures SlugFromHost(host, baseDomain).Some? || ClassifyHost(host, baseDomain).Tenant? ==>
              (SameAnswer(host, baseDomain) <==> ReadOnce(host))
    ensures SlugFromHost(host, baseDomain).None? && !ClassifyHost(host, baseDomain).Tenant? ==>
              SameAnswer(host, baseDomain)
  {
    var c := ClassifyHost(host, baseDomain);
    if ReadOnce(host) {
      forall slug ensures SlugFromHost(host, baseDomain) == Some(slug) <==> c == Tenant(Name(host), slug) {
        ReadersAgree(host, baseDomain, slug);
      }
    } else if c.Tenant? {
      NameIsOwnHostIffReadOnce(host, baseDomain);
      SlugIsTheFront(Name(host), NormalizeBaseDomain(baseDomain), c.slug);
    }
  }

  // ---- Which hosts are settled by one reading, and which are not ----

  /** No brackets, no blanks, and at most one colon. */
  predicate Simple(host: string) {
    && (forall i, j | 0 <= i < j < |host| :: !(host[i] == ':' && host[j] == ':'))
    && forall c <- host :: c != '[' && !IsSpace(c)
  }

  lemma UnspacedIsTrimmed(s: string)
    requires forall c <- s :: !IsSpace(c)
    ensures Trim(s) == s
  {
    if s != "" { assert s[0] in s && s[|s| - 1] in s; }
  }

  lemma LastIndexUnique(s: string, c: char, k: int)
    requires 0 <= k < |s| && s[k] == c && forall i | k < i < |s| :: s[i] != c
    ensures LastIndexOf(s, c) == k
  {
  }

  lemma FoldFindsSameChar(s: string, c: char)
    requires !('a' <= c <= 'z') && !('A' <= c <= 'Z')
    ensures forall i | 0 <= i < |s| :: Fold(s)[i] == c <==> s[i] == c
  {
  }

  /** The name of a simple host has no blank and no bracket, so nothing but a port could still be cut off. */
  lemma SimpleName(host: string)
    requires Simple(host)
    ensures StripPort(host) <= host && Trim(host) == host
    ensures forall c <- Name(host) :: c != '[' && !IsSpace(c)
    ensures Trim(Name(host)) == Name(host)
  {
    UnspacedIsTrimmed(host);
    var bare, name := StripPort(host), Name(host);
    forall c | c in name ensures c != '[' && !IsSpace(c) {
      var i :| 0 <= i < |name| && name[i] == c;
      assert bare[i] in host;
    }
    UnspacedIsTrimmed(name);
  }

  /** A colon left in the name is the host's only one, and was not a port's. */
  lemma LeftColonIsNoPort(host: string, colon: nat)
    requires Simple(host) && 0 < colon < |Name(host)| && Name(host)[colon] == ':'
    ensures !IsNumber(Name(host)[colon + 1..])
  {
    SimpleName(host);
    FoldFindsSameChar(StripPort(host), ':');
    assert host[colon] == ':';
    LastIndexUnique(host, ':', colon);
    assert StripPort(host) == host;
    TailsFoldTogether(host, colon + 1);
  }

  lemma SimpleHostsAreReadOnce(host: string)
    requires Simple(host)
    ensures ReadOnce(host)
  {
    SimpleName(host);
    var name := Name(host);
    var colon := LastIndexOf(name, ':');
    if colon > 0 { LeftColonIsNoPort(host, colon); }
    assert name != "" ==> name[0] in name;
  }

  lemma TailsFoldTogether(s: string, k: nat)
    requires k <= |s|
    ensures IsNumber(Fold(s)[k..]) <==> IsNumber(s[k..])
  {
    FoldTail(s, k);
    FoldKeepsDigits(s[k..], |s| - k);
  }

  lemma StripPortCutsOneSuffix(front: string, port: string)
    requires front != "" && !IsSpace(front[0]) && front[0] != '[' && IsNumber(port)
    ensures StripPort(front + ":" + port) == front
  {
    var s := front + ":" + port;
    assert s[|s| - 1] == port[|port| - 1];
    assert TrimStart(s) == s && TrimEnd(s) == s;
    forall i | |front| < i < |s| ensures s[i] != ':' {
      assert s[i] == port[i - |front| - 1];
    }
    LastIndexUnique(s, ':', |front|);
    assert s[|front| + 1..] == port && s[..|front|] == front;
  }

  lemma NameCutsOneSuffix(front: string, port: string)
    requires front != "" && !IsSpace(front[0]) && front[0] != '[' && Lowered(front) && IsNumber(port)
    ensures Name(front + ":" + port) == front
    ensures Lowered(front + ":" + port)
  {
    StripPortCutsOneSuffix(front, port);
    FoldOfLowered(front);
    DigitsAreLowered(port);
  }

  lemma {:induction false} FirstIndexIs(s: string, c: char, k: nat)
    requires k < |s| && s[k] == c && c !in s[..k]
    ensures IndexOf(s, c) == k
  {
    if k > 0 {
      assert s[0] in s[..k] && s[..k][1..] == s[1..][..k - 1];
      FirstIndexIs(s[1..], c, k - 1);
    }
  }

  /** What stands in brackets is the name, whatever follows them. */
  lemma BracketsHoldTheName(inner: string, rest: string)
    requires ']' !in inner
    ensures StripPort("[" + inner + "]" + rest) == inner
  {
    var front := "[" + inner + "]";
    TrimKeepsFront(front, rest);
    var trimmed := Trim(front + rest);
    assert trimmed[..|front|] == front && front[|inner| + 1] == ']';
    assert trimmed[..|inner| + 1] == "[" + inner;
    FirstIndexIs(trimmed, ']', |inner| + 1);
    assert trimmed[1..|inner| + 1] == inner;
  }

  /** `trimmed` is a name and a port. */
  ghost predicate NameAndPort(trimmed: string, front: string, port: string) {
    front != "" && IsNumber(port) && trimmed == front + ":" + port
  }

  ghost predicate HasPort(trimmed: string) {
    exists front, port :: NameAndPort(trimmed, front, port)
  }

  /** A host in no brackets and without a port is its own name, but for blanks around it. */
  lemma PlainHostIsItsName(host: string)
    requires var t := Trim(host); (t == "" || t[0] != '[' || ']' !in t) && !HasPort(t)
    ensures StripPort(host) == Trim(host)
  {
    var t := Trim(host);
    var colon := LastIndexOf(t, ':');
    if colon > 0 && IsNumber(t[colon + 1..]) {
      assert t == t[..colon] + ":" + t[colon + 1..];
      assert NameAndPort(t, t[..colon], t[colon + 1..]);
    }
  }

  /** The base domain is what is configured, in lower case and without blanks around it, and `vodoge.com` if nothing is.
      */
  lemma BaseDomainOrDefault(baseDomain: string)
    ensures Trim(baseDomain) == "" ==> NormalizeBaseDomain(baseDomain) == "vodoge.com"
    ensures Trim(baseDomain) != "" ==> NormalizeBaseDomain(baseDomain) == Fold(Trim(baseDomain))
  {
  }

  /** A host is the apex exactly when its name is the base domain, or that behind `www`. */
  lemma ApexExactlyWhen(host: string, baseDomain: string)
    ensures var name, base := Name(host), NormalizeBaseDomain(baseDomain);
            ClassifyHost(host, baseDomain) == Apex(name) <==> name == base || name == "www." + base
  {
    BaseIsNormalizedOnce(baseDomain);
  }

  /** Every tenant host with two ports on it: it is routed as the tenant's, and the slug reader knows nothing of it. */
  lemma TwoPortsDivideTheReaders(slug: string, baseDomain: string, first: string, second: string)
    requires IsLabel(slug) && Lowered(slug) && slug[0] != '[' && !IsSpace(slug[0])
    requires IsNumber(first) && IsNumber(second)
    requires ':' !in NormalizeBaseDomain(baseDomain)
    ensures var host := HostOf(slug, baseDomain) + ":" + first + ":" + second;
            && ClassifyHost(host, baseDomain) == Tenant(Name(host), slug)
            && SlugFromHost(host, baseDomain) == None
            && !ReadOnce(host)
  {
    var base := NormalizeBaseDomain(baseDomain);
    var own := HostOf(slug, baseDomain);
    var once := own + ":" + first;
    var host := once + ":" + second;
    assert own[0] == slug[0] && once[0] == slug[0];
    assert Lowered(base) by { FoldOfLowered(Trim(baseDomain)); }
    NameCutsOneSuffix(own, first);
    NameCutsOneSuffix(once, second);
    assert own[|own| - |base|..] == base;
    EndsInDigitsAfterColon(own, first, base);
    TenantExactlyWhen(host, baseDomain, slug);
    NameIsOwnHostIffReadOnce(host, baseDomain);
  }

  lemma DigitsAreLowered(s: string)
    requires IsNumber(s)
    ensures Lowered(s)
  {
  }

  /** A name that still carries a port does not end in a base domain without a colon. */
  lemma EndsInDigitsAfterColon(own: string, port: string, base: string)
    requires ':' !in base && |own| > |base| + 1 && own[|own| - |base|..] == base
    requires IsNumber(port)
    ensures !EndsWith(own + ":" + port, "." + base) && !IsApex(own + ":" + port, base)
  {
    var once := own + ":" + port;
    var from := |own| + |port| - |base|;
    assert once[|own|] == ':' && |once| - |base| - 1 == from;
    if from <= |own| {
      assert once[from..][|own| - from] == ':' && ':' !in "." + base;
    } else {
      assert once[from..][0] == port[from - |own| - 1];
    }
    assert ':' in once && ':' !in "www." + base;
  }
}
