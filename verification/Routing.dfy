/**
 Published URLs and subdomain dispatch: the printer in internal/project/manager.go
 (deploymentFor, appURL) and the parser in internal/server/router.go (stripPort and the
 dispatcher closure), with net.SplitHostPort written out.
 */
module Routing {
  import opened Text
  import opened Wrappers
  import opened ProjectStore

  // ---- Printing URLs ---------------------------------------------------------------------------

  datatype Site = Site(baseDomain: string, aliases: set<string>, httpMode: bool, externalPort: int) {
    function Scheme(): (r: string) {
      if httpMode then "http" else "https"
    }

    /** The listen port is printed unless it is unset or the scheme's default. */
    predicate PortShown() {
      externalPort != 0 && externalPort != (if httpMode then 80 else 443)
    }
  }

  function PublicHost(site: Site, subdomain: string): (r: string) {
    if site.baseDomain != "" then subdomain + "." + site.baseDomain else subdomain
  }

  function AppUrl(site: Site, subdomain: string): (r: string) {
    var url := site.Scheme() + "://" + PublicHost(site, subdomain);
    if site.PortShown() then url + ":" + Itoa(site.externalPort) else url
  }

  datatype EnvTarget = EnvTarget(port: int, url: string)

  datatype Deployment = Deployment(dev: EnvTarget, prod: EnvTarget)

  /** A NULL port reads as zero. */
  function PortNumber(p: Port): (r: int) {
    if p.Null? then 0 else p.number
  }

  function DeploymentFor(site: Site, row: Row): (r: Deployment) {
    Deployment(EnvTarget(PortNumber(row.dev), AppUrl(site, row.name + DEV_SUFFIX)),
               EnvTarget(PortNumber(row.prod), AppUrl(site, row.name)))
  }

  /** What a browser sends as the Host header for a URL: everything after the scheme. */
  function HostHeader(url: string): (r: string) {
    var i := Index(url, "://");
    if i < 0 then url else url[i + 3..]
  }

  // ---- Parsing hosts -----------------------------------------------------------------------------

  function FirstIndexOf(s: string, c: char): (i: int)
    ensures -1 <= i < |s|
  {
    if s == "" then -1
    else if s[0] == c then 0
    else
      var i := FirstIndexOf(s[1..], c);
      if i < 0 then -1 else i + 1
  }

  /** net.SplitHostPort, keeping only the host; None is its error result. */
  function SplitHostPort(hostport: string): (r: Option<string>) {
    var i := LastIndexOf(hostport, ':');
    if i < 0 then None
    else if hostport[0] == '[' then
      var end := FirstIndexOf(hostport, ']');
      if end < 1 || end + 1 != i then None
      else if '[' in hostport[1..] || ']' in hostport[end + 1..] then None
      else Some(hostport[1..end])
    else if ':' in hostport[..i] || '[' in hostport || ']' in hostport then None
    else Some(hostport[..i])
  }

  function StripPort(host: string): (r: string) {
    match SplitHostPort(host)
    case None => host
    case Some(h) => h
  }

  // ---- Dispatch ----------------------------------------------------------------------------------

  datatype Target = Dashboard | UnknownHost | ProjectNotFound | EnvironmentUnavailable | Proxy(port: int)

  ghost function GetByName(rows: Rows, name: string): (r: Option<Row>)
    ensures r.Some? <==> exists id :: id in rows && rows[id].name == name
    ensures r.Some? ==> exists id :: id in rows && rows[id] == r.value && rows[id].name == name
  {
    if exists id :: id in rows && rows[id].name == name then
      var id :| id in rows && rows[id].name == name;
      Some(rows[id])
    else None
  }

  ghost function RouteSubdomain(rows: Rows, subdomain: string): (r: Target) {
    var wantDev := HasSuffix(subdomain, DEV_SUFFIX);
    var row := GetByName(rows, if wantDev then TrimSuffix(subdomain, DEV_SUFFIX) else subdomain);
    if row.None? then ProjectNotFound
    else
      var port := PortNumber(if wantDev then row.value.dev else row.value.prod);
      if port == 0 then EnvironmentUnavailable else Proxy(port)
  }

  /** The dispatcher on a host whose port has been stripped. */
  ghost function RouteHost(site: Site, rows: Rows, host: string): (r: Target) {
    var suffix := "." + site.baseDomain;
    if site.baseDomain == "" || host == site.baseDomain || host in site.aliases then Dashboard
    else if !HasSuffix(host, suffix) || TrimSuffix(host, suffix) == "" then UnknownHost
    else RouteSubdomain(rows, TrimSuffix(host, suffix))
  }

  ghost function Dispatch(site: Site, rows: Rows, header: string): (r: Target) {
    RouteHost(site, rows, StripPort(header))
  }

  // ---- The two environments of a project -----------------------------------------------------------

  function Subdomain(row: Row, dev: bool): (r: string) {
    if dev then row.name + DEV_SUFFIX else row.name
  }

  function EnvPort(row: Row, dev: bool): (r: Port) {
    if dev then row.dev else row.prod
  }

  predicate PlainChars(s: string) {
    forall c | c in s :: c != ':' && c != '[' && c != ']' && c != '.'
  }

  lemma SubdomainIsPlain(row: Row, dev: bool)
    requires ValidName(row.name)
    ensures Subdomain(row, dev) != "" && PlainChars(Subdomain(row, dev))
    ensures HasSuffix(Subdomain(row, dev), DEV_SUFFIX) <==> dev
    ensures dev ==> TrimSuffix(Subdomain(row, dev), DEV_SUFFIX) == row.name
  {
  }

  /** The subdomain of an environment selects that environment of that project. */
  lemma SubdomainSelects(rows: Rows, id: Id, dev: bool)
    requires Aligned(rows) && id in rows
    ensures EnvPort(rows[id], dev).Port?
    ensures RouteSubdomain(rows, Subdomain(rows[id], dev)) == Proxy(EnvPort(rows[id], dev).number)
  {
  }

  /** Only an environment's own subdomain routes to its port. */
  lemma RoutedSubdomain(rows: Rows, subdomain: string, port: int) returns (id: Id, dev: bool)
    requires Aligned(rows) && RouteSubdomain(rows, subdomain) == Proxy(port)
    ensures id in rows && subdomain == Subdomain(rows[id], dev) && EnvPort(rows[id], dev) == Port(port)
  {
    dev := HasSuffix(subdomain, DEV_SUFFIX);
    var row := GetByName(rows, if dev then TrimSuffix(subdomain, DEV_SUFFIX) else subdomain).value;
    id :| id in rows && rows[id] == row && row.name == (if dev then TrimSuffix(subdomain, DEV_SUFFIX) else subdomain);
    assert AlignedPair(rows[id]);
  }

  // ---- Which printed hosts survive stripping -------------------------------------------------------

  predicate HasBracket(s: string) { '[' in s || ']' in s }

  predicate OneColon(s: string) {
    ':' in s && ':' !in s[..LastIndexOf(s, ':')]
  }

  /** With a printed port the base domain must be free of colons and brackets; without one, only a base
      domain with exactly one colon and no bracket is cut. */
  predicate SurvivesStripping(site: Site) {
    if site.PortShown() then ':' !in site.baseDomain && !HasBracket(site.baseDomain)
    else !OneColon(site.baseDomain) || HasBracket(site.baseDomain)
  }

  /** A host that starts with a plain subdomain is cut only at a single colon in an unbracketed host. */
  lemma StripWithoutPort(sub: string, base: string)
    requires sub != "" && PlainChars(sub)
    ensures
      var host := sub + "." + base;
      StripPort(host) ==
        if OneColon(base) && !HasBracket(base) then sub + "." + base[..LastIndexOf(base, ':')] else host
  {
    hide LastIndexOf;
    var head := sub + ".";
    var host := head + base;
    assert head[0] == sub[0] && host[0] == sub[0] && sub[0] in sub;
    InHost(sub, base, ':');
    InHost(sub, base, '[');
    InHost(sub, base, ']');
    if ':' in base {
      LastIndexInTail(head, base, ':');
      var i := LastIndexOf(base, ':');
      assert host[..|head| + i] == head + base[..i];
      InHost(sub, base[..i], ':');
    } else {
      assert LastIndexOf(host, ':') == -1;
    }
  }

  lemma StripWithPort(sub: string, base: string, port: int)
    requires sub != "" && PlainChars(sub)
    ensures
      var host := sub + "." + base;
      StripPort(host + ":" + Itoa(port)) ==
        if ':' in base || HasBracket(base) then host + ":" + Itoa(port) else host
  {
    var host := sub + "." + base;
    var header := host + ":" + Itoa(port);
    assert header[0] == sub[0] && sub[0] in sub;
    PrintedPort(host, port);
    hide LastIndexOf, Itoa;
    InHost(sub, base, ':');
    InHost(sub, base, '[');
    InHost(sub, base, ']');
  }

  /** The last colon of a printed host is the one in front of the port, which has no bracket. */
  lemma PrintedPort(host: string, port: int)
    ensures
      var header := host + ":" + Itoa(port);
      && LastIndexOf(header, ':') == |host| && header[..|host|] == host
      && ('[' in header <==> '[' in host) && (']' in header <==> ']' in host)
  {
    var tail := ":" + Itoa(port);
    assert host + ":" + Itoa(port) == host + tail;
    assert forall j | 0 < j < |tail| :: tail[j] in Itoa(port);
    assert '[' !in tail && ']' !in tail;
    LastIndexUnique(tail, ':', 0);
    LastIndexInTail(host, tail, ':');
    hide LastIndexOf, Itoa;
    InAppend(host, tail, '[');
    InAppend(host, tail, ']');
  }

  lemma InHost(sub: string, base: string, c: char)
    requires c !in sub && c != '.'
    ensures c in sub + "." + base <==> c in base
  {
  }

  lemma HostHeaderOfUrl(scheme: string, authority: string)
    requires ':' !in scheme
    ensures HostHeader(scheme + "://" + authority) == authority
  {
    var url := scheme + "://" + authority;
    assert url[|scheme|..|scheme| + 3] == "://";
    assert OccursAt(url, "://", |scheme|);
    forall j: nat | j < |scheme| ensures !OccursAt(url, "://", j) {
      assert url[j] == scheme[j] && scheme[j] in scheme;
    }
    assert url[|scheme| + 3..] == authority;
  }

  lemma HeaderOfAppUrl(site: Site, sub: string)
    ensures HostHeader(AppUrl(site, sub)) ==
            if site.PortShown() then PublicHost(site, sub) + ":" + Itoa(site.externalPort) else PublicHost(site, sub)
  {
    var host := PublicHost(site, sub);
    HostHeaderOfUrl(site.Scheme(), host);
    HostHeaderOfUrl(site.Scheme(), host + ":" + Itoa(site.externalPort));
    assert site.Scheme() + "://" + host + ":" + Itoa(site.externalPort)
        == site.Scheme() + "://" + (host + ":" + Itoa(site.externalPort));
  }

  // ---- Main results ----------------------------------------------------------------------------

  /** An intact printed host reaches its environment; if it is an alias the dashboard answers instead. */
  lemma IntactHostRoutes(site: Site, rows: Rows, id: Id, dev: bool)
    requires Aligned(rows) && id in rows && site.baseDomain != ""
    ensures
      var host := PublicHost(site, Subdomain(rows[id], dev));
      && EnvPort(rows[id], dev).Port?
      && RouteHost(site, rows, host) == if host in site.aliases then Dashboard else Proxy(EnvPort(rows[id], dev).number)
  {
    var sub := Subdomain(rows[id], dev);
    SubdomainIsPlain(rows[id], dev);
    SubdomainSelects(rows, id, dev);
    assert PublicHost(site, sub) == sub + ("." + site.baseDomain);
    TrimOfAppend(sub, "." + site.baseDomain);
    hide RouteSubdomain, Aligned, PlainChars, HasSuffix, TrimSuffix;
  }

  /** A host cut short at its only colon cannot end in the base domain, which contains that colon. */
  lemma CutHostGetsNowhere(site: Site, rows: Rows, sub: string)
    requires PlainChars(sub) && OneColon(site.baseDomain)
    ensures !RouteHost(site, rows, sub + "." + site.baseDomain[..LastIndexOf(site.baseDomain, ':')]).Proxy?
  {
    var base := site.baseDomain;
    var host := sub + "." + base[..LastIndexOf(base, ':')];
    InAppend(sub + ".", base[..LastIndexOf(base, ':')], ':');
    InAppend(sub, ".", ':');
    assert ':' !in host;
    var suffix := "." + base;
    InAppend(".", base, ':');
    if HasSuffix(host, suffix) {
      InAppend(TrimSuffix(host, suffix), suffix, ':');
      assert false;
    }
  }

  /** A host that keeps its port would have to name a project with a dot in its name. */
  lemma UncutHostGetsNowhere(site: Site, rows: Rows, sub: string, port: int)
    requires NamesOk(rows) && sub != "" && PlainChars(sub)
    ensures !RouteHost(site, rows, sub + "." + site.baseDomain + ":" + Itoa(port)).Proxy?
  {
    var host := sub + "." + site.baseDomain + ":" + Itoa(port);
    var suffix := "." + site.baseDomain;
    if HasSuffix(host, suffix) {
      var name := TrimSuffix(host, suffix);
      assert host == name + suffix;
      assert |name| > |sub|;
      assert name[|sub|] == host[|sub|] == '.';
      DottedNameIsUnknown(rows, name, |sub|);
    }
  }

  lemma DottedNameIsUnknown(rows: Rows, name: string, k: nat)
    requires NamesOk(rows) && k < |name| && name[k] == '.'
    ensures RouteSubdomain(rows, name) == ProjectNotFound
  {
  }

  /** The URL round trip, with its exact condition: dispatching the host of the URL that deploymentFor
      prints for an environment reaches that environment's port if and only if a base domain is set, the
      host is not an alias, and the base domain survives port stripping. */
  lemma UrlRoundTrip(site: Site, rows: Rows, id: Id, dev: bool)
    requires Aligned(rows) && id in rows
    ensures
      var row := rows[id];
      var deployment := DeploymentFor(site, row);
      var target := if dev then deployment.dev else deployment.prod;
      && EnvPort(row, dev) == Port(target.port)
      && (Dispatch(site, rows, HostHeader(target.url)) == Proxy(target.port) <==>
          && site.baseDomain != ""
          && PublicHost(site, Subdomain(row, dev)) !in site.aliases
          && SurvivesStripping(site))
  {
    var row := rows[id];
    var sub := Subdomain(row, dev);
    assert AlignedPair(row);
    if site.baseDomain != "" {
      SubdomainIsPlain(row, dev);
      HeaderOfAppUrl(site, sub);
      IntactHostRoutes(site, rows, id, dev);
      hide Aligned, RouteHost, StripPort, OneColon, HasBracket, PlainChars, HostHeader, AppUrl, AlignedPair;
      if site.PortShown() {
        StripWithPort(sub, site.baseDomain, site.externalPort);
        AlignedNames(rows);
        UncutHostGetsNowhere(site, rows, sub, site.externalPort);
      } else {
        StripWithoutPort(sub, site.baseDomain);
        if OneColon(site.baseDomain) {
          CutHostGetsNowhere(site, rows, sub);
        }
      }
    }
  }

  lemma AlignedNames(rows: Rows)
    requires Aligned(rows)
    ensures NamesOk(rows) && PortsAligned(rows)
  {
  }

  /** Two distinct port-stripped hosts never route to the same port. */
  lemma HostsNeverShareAPort(site: Site, rows: Rows, header1: string, header2: string, port: int)
    requires Aligned(rows)
    ensures Dispatch(site, rows, header1) == Proxy(port) && Dispatch(site, rows, header2) == Proxy(port) ==>
              StripPort(header1) == StripPort(header2)
  {
    hide StripPort, RouteSubdomain;
    if Dispatch(site, rows, header1) == Proxy(port) && Dispatch(site, rows, header2) == Proxy(port) {
      var suffix := "." + site.baseDomain;
      var id1, dev1 := RoutedSubdomain(rows, TrimSuffix(StripPort(header1), suffix), port);
      var id2, dev2 := RoutedSubdomain(rows, TrimSuffix(StripPort(header2), suffix), port);
      PortsAreDistinct(rows, id1, id2);
      PortsAreDistinct(rows, id2, id1);
    }
  }

  // ---- What else is printed and served ---------------------------------------------------------------

  /** Every case of a printed URL: https without the port 443 or an unset one, http without 80. */
  lemma UrlTable(site: Site, sub: string)
    ensures
      var host := if site.baseDomain == "" then sub else sub + ("." + site.baseDomain);
      && (!site.httpMode && (site.externalPort == 0 || site.externalPort == 443) ==>
            AppUrl(site, sub) == "https://" + host)
      && (site.httpMode && (site.externalPort == 0 || site.externalPort == 80) ==>
            AppUrl(site, sub) == "http://" + host)
      && (!site.httpMode && site.externalPort != 0 && site.externalPort != 443 ==>
            AppUrl(site, sub) == "https://" + (host + (":" + Itoa(site.externalPort))))
      && (site.httpMode && site.externalPort != 0 && site.externalPort != 80 ==>
            AppUrl(site, sub) == "http://" + (host + (":" + Itoa(site.externalPort))))
  {
    var host := PublicHost(site, sub);
    assert sub + "." + site.baseDomain == sub + ("." + site.baseDomain);
    assert "https" + "://" == "https://" && "http" + "://" == "http://";
    Regroup(site.Scheme() + "://", host, ":", Itoa(site.externalPort));
  }

  lemma Regroup(a: string, b: string, c: string, d: string)
    ensures a + b + c + d == a + (b + (c + d))
  {
  }

  /** The host is `sub.baseDomain` for a nonempty sub. */
  ghost predicate HasLabel(site: Site, host: string, sub: string) {
    sub != "" && host == sub + ("." + site.baseDomain)
  }

  /** For arbitrary rows: the base domain and its aliases get the dashboard, a host that is no subdomain is
      unknown, and a subdomain is answered for the project its label names, -dev meaning the DEV port. */
  lemma RouteTable(site: Site, rows: Rows, host: string)
    ensures
      var dashboard := site.baseDomain == "" || host == site.baseDomain || host in site.aliases;
      var r := RouteHost(site, rows, host);
      && (r == Dashboard <==> dashboard)
      && (r == UnknownHost <==> !dashboard && forall sub :: !HasLabel(site, host, sub))
      && (forall sub | HasLabel(site, host, sub) && !dashboard :: r == RouteSubdomain(rows, sub))
  {
    var suffix := "." + site.baseDomain;
    if HasSuffix(host, suffix) && TrimSuffix(host, suffix) != "" {
      assert HasLabel(site, host, TrimSuffix(host, suffix));
    }
    forall sub | HasLabel(site, host, sub)
      ensures HasSuffix(host, suffix) && TrimSuffix(host, suffix) == sub
    {
      TrimOfAppend(sub, suffix);
    }
    hide HasSuffix, TrimSuffix;
    SubdomainIsServed(rows, TrimSuffix(host, suffix));
  }

  lemma SubdomainIsServed(rows: Rows, sub: string)
    ensures RouteSubdomain(rows, sub) != Dashboard && RouteSubdomain(rows, sub) != UnknownHost
  {
  }

  /** A NULL port, or the zero of a row that has none, makes the environment unavailable; a label that names no
      project is not found. */
  lemma SubdomainTable(rows: Rows, name: string, dev: bool)
    requires dev || !HasSuffix(name, DEV_SUFFIX)
    requires forall i, j | i in rows && j in rows && rows[i].name == rows[j].name :: i == j
    ensures
      var r := RouteSubdomain(rows, if dev then name + "-dev" else name);
      && (r == ProjectNotFound <==> forall i | i in rows :: rows[i].name != name)
      && (forall i | i in rows && rows[i].name == name ::
            var port := if dev then rows[i].dev else rows[i].prod;
            r == if port == Null || port == Port(0) then EnvironmentUnavailable else Proxy(port.number))
  {
    TrimOfAppend(name, DEV_SUFFIX);
    hide HasSuffix, TrimSuffix;
    var found := GetByName(rows, name);
    if found.Some? {
      var id :| id in rows && rows[id] == found.value && rows[id].name == name;
      assert forall i | i in rows && rows[i].name == name :: i == id;
    }
  }

  lemma BracketedParts(address: string, tail: string)
    requires !HasBracket(address) && '[' !in tail && ']' !in tail
    ensures
      var host := "[" + address + "]" + tail;
      && host[0] == '[' && '[' !in host[1..] && ']' !in host[|address| + 2..]
      && host[1..|address| + 1] == address
  {
    var host := "[" + address + "]" + tail;
    assert host[1..] == address + ("]" + tail);
    assert host[|address| + 2..] == tail;
    InAppend(address, "]" + tail, '[');
    InAppend("]", tail, '[');
  }

  /** A bracketed address loses its brackets and its port. */
  lemma StripBracketed(address: string, port: int)
    requires !HasBracket(address)
    ensures StripPort("[" + address + "]" + ":" + Itoa(port)) == address
  {
    hide LastIndexOf, FirstIndexOf, Itoa;
    var inner, tail := "[" + address + "]", ":" + Itoa(port);
    assert inner + ":" + Itoa(port) == inner + tail;
    PrintedPort(inner, port);
    TailIsPlain(port);
    BracketedParts(address, tail);
    FirstBracket(address, tail);
    hide HasBracket;
    assert |inner| == |address| + 2;
  }

  lemma TailIsPlain(port: int)
    ensures '[' !in ":" + Itoa(port) && ']' !in ":" + Itoa(port)
  {
    InAppend(":", Itoa(port), '[');
    InAppend(":", Itoa(port), ']');
  }

  lemma {:induction false} FirstIndexIs(s: string, c: char, i: nat)
    requires i < |s| && s[i] == c && forall j | 0 <= j < i :: s[j] != c
    ensures FirstIndexOf(s, c) == i
  {
    if i > 0 {
      FirstIndexIs(s[1..], c, i - 1);
    }
  }

  lemma FirstBracket(address: string, tail: string)
    requires !HasBracket(address)
    ensures FirstIndexOf("[" + address + "]" + tail, ']') == |address| + 1
  {
    var s := "[" + address + "]" + tail;
    assert forall j | 1 <= j <= |address| :: s[j] == address[j - 1] && address[j - 1] in address;
    FirstIndexIs(s, ']', |address| + 1);
  }
}
