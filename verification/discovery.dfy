/** Locating the Moray shard: an SRV lookup of
    `_moray._tcp.{shard}.moray.{domain}`, a random pick among the records,
    the first address of the picked record's target, and a plaintext client
    connected to (that address, the record's port).

    DNS itself is an input: `Dns` gives the answer to every SRV query and
    every host lookup, including failures to load the resolver
    configuration. The random pick is an explicit draw. */
module Discovery {

  import opened Wrappers
  import opened Decimal

  datatype IpAddr = IpV4(octets: seq<nat>) | IpV6(segments: seq<nat>)

  /** An SRV record: priority and weight are carried but not consulted. */
  datatype Srv = Srv(priority: u16, weight: u16, port: u16, target: string)

  datatype SocketAddr = SocketAddr(ip: IpAddr, port: u16)

  /** What the resolver answers: the SRV records for a query name, and the
      addresses of a host name; `Err` for a failed lookup. */
  datatype Dns = Dns(srv: string -> Result<seq<Srv>, Error>, hosts: string -> Result<seq<IpAddr>, Error>)

  /** A connected `MorayClient`, identified by the address it talks to. */
  datatype MorayClient = MorayClient(addr: SocketAddr)

  predicate NoDot(s: string) {
    forall i :: 0 <= i < |s| ==> s[i] != '.'
  }

  /** `format!("{}.{}.{}", svc, proto, host)`. */
  function SrvQuery(svc: string, proto: string, host: string): string {
    svc + "." + proto + "." + host
  }

  /** `format!("{}.moray.{}", shard, domain)`. */
  function MorayDomain(shard: u32, domain: string): string {
    Format(shard) + ".moray." + domain
  }

  /** The query `create_client` makes for a shard. */
  function MorayQuery(shard: u32, domain: string): string {
    SrvQuery("_moray", "_tcp", MorayDomain(shard, domain))
  }

  /** A dot-free label followed by a dot is recovered from the front of the
      string it starts. */
  lemma {:induction false} LeadingLabel(a: string, x: string, b: string, y: string)
    requires NoDot(a) && NoDot(b)
    requires a + "." + x == b + "." + y
    ensures a == b && x == y
  {
    var s := a + "." + x;
    var k := if |a| < |b| then |a| else |b|;
    assert s[k] == '.';
    assert |a| == |b|;
    assert a == s[..|a|];
    assert b == (b + "." + y)[..|b|];
    assert x == s[|a| + 1..];
    assert y == (b + "." + y)[|b| + 1..];
  }

  lemma DigitsHaveNoDot(s: string)
    requires AllDigits(s)
    ensures NoDot(s)
  {
  }

  /** Distinct shards, or distinct domains, are looked up under distinct
      names: the query determines both. */
  lemma MorayQueryInjective(shard1: u32, domain1: string, shard2: u32, domain2: string)
    requires MorayQuery(shard1, domain1) == MorayQuery(shard2, domain2)
    ensures shard1 == shard2 && domain1 == domain2
  {
    var f1, f2 := Format(shard1), Format(shard2);
    var q1, q2 := MorayQuery(shard1, domain1), MorayQuery(shard2, domain2);
    assert q1 == "_moray" + "." + ("_tcp" + "." + (f1 + "." + ("moray" + "." + domain1)));
    assert q2 == "_moray" + "." + ("_tcp" + "." + (f2 + "." + ("moray" + "." + domain2)));
    LeadingLabel("_moray", "_tcp" + "." + (f1 + "." + ("moray" + "." + domain1)),
                 "_moray", "_tcp" + "." + (f2 + "." + ("moray" + "." + domain2)));
    LeadingLabel("_tcp", f1 + "." + ("moray" + "." + domain1), "_tcp", f2 + "." + ("moray" + "." + domain2));
    DigitsHaveNoDot(f1);
    DigitsHaveNoDot(f2);
    LeadingLabel(f1, "moray" + "." + domain1, f2, "moray" + "." + domain2);
    LeadingLabel("moray", domain1, "moray", domain2);
    FormatInjective(shard1, shard2);
  }

  /** `choose` on the SRV answer: `None` (reported as `CatchAll`) when it
      is empty, otherwise the record the draw `pick` selects. */
  function Choose(records: seq<Srv>, pick: nat): (r: Result<Srv, Error>)
    ensures r.Ok? <==> |records| > 0
    ensures r.Ok? ==> r.value in records
    ensures r.Err? ==> r.error == CatchAll
  {
    if |records| == 0 then Err(CatchAll) else Ok(records[pick % |records|])
  }

  /** Every record of a non-empty answer is picked by some draw: the choice
      is not biased towards priority or weight. */
  lemma EveryCandidateCanBeChosen(records: seq<Srv>, rec: Srv)
    requires rec in records
    ensures exists pick: nat :: Choose(records, pick) == Ok(rec)
  {
    var i :| 0 <= i < |records| && records[i] == rec;
    assert Choose(records, i) == Ok(rec);
  }

  function GetSrvRecord(svc: string, proto: string, host: string, dns: Dns, pick: nat): (r: Result<Srv, Error>)
    // a failed lookup is passed on unchanged
    ensures dns.srv(SrvQuery(svc, proto, host)).Err? ==> r == Err(dns.srv(SrvQuery(svc, proto, host)).error)
    // an empty answer is an error, never a panic
    ensures dns.srv(SrvQuery(svc, proto, host)) == Ok([]) ==> r == Err(CatchAll)
    // a record comes back exactly when the answer holds one, and it is one of the answer's records
    ensures r.Ok? <==> dns.srv(SrvQuery(svc, proto, host)).Ok? && |dns.srv(SrvQuery(svc, proto, host)).value| > 0
    ensures r.Ok? ==> r.value in dns.srv(SrvQuery(svc, proto, host)).value
  {
    match dns.srv(SrvQuery(svc, proto, host))
    case Err(e) => Err(e)
    case Ok(records) => Choose(records, pick)
  }

  function LookupIp(host: string, dns: Dns): (r: Result<IpAddr, Error>)
    // a failed lookup is passed on unchanged
    ensures dns.hosts(host).Err? ==> r == Err(dns.hosts(host).error)
    // the lookup yields an address exactly when the answer has one, and it is one of the answer's
    ensures r.Ok? <==> dns.hosts(host).Ok? && |dns.hosts(host).value| > 0
    ensures r.Ok? ==> r.value in dns.hosts(host).value
    ensures r.Err? && dns.hosts(host).Ok? ==> r.error == CatchAll
  {
    match dns.hosts(host)
    case Err(e) => Err(e)
    case Ok(addrs) => if |addrs| == 0 then Err(CatchAll) else Ok(addrs[0])
  }

  /** With several addresses the first one is used: two answers that agree
      on their first address give the same result, whatever follows it. */
  lemma LookupIpUsesFirstAddress(host: string, dns: Dns, other: Dns, first: IpAddr, rest: seq<IpAddr>, rest': seq<IpAddr>)
    requires dns.hosts(host) == Ok([first] + rest)
    requires other.hosts(host) == Ok([first] + rest')
    ensures LookupIp(host, dns) == LookupIp(host, other) == Ok(first)
  {
  }

  /** `host` resolves to `addr` through one of its `_moray._tcp` SRV
      records: the record's port, and the first address of its target. */
  ghost predicate ServedBy(host: string, dns: Dns, addr: SocketAddr) {
    var answer := dns.srv(SrvQuery("_moray", "_tcp", host));
    && answer.Ok?
    && exists rec :: rec in answer.value && rec.port == addr.port && LookupIp(rec.target, dns) == Ok(addr.ip)
  }

  function GetMoraySrvSockaddr(host: string, dns: Dns, pick: nat): (r: Result<SocketAddr, Error>)
    ensures r.Ok? ==> ServedBy(host, dns, r.value)
    ensures dns.srv(SrvQuery("_moray", "_tcp", host)) == Ok([]) ==> r == Err(CatchAll)
    ensures dns.srv(SrvQuery("_moray", "_tcp", host)).Err? ==> r == Err(dns.srv(SrvQuery("_moray", "_tcp", host)).error)
    // the address comes from the chosen record: its target's lookup decides, with no fallback to another record
    ensures GetSrvRecord("_moray", "_tcp", host, dns, pick).Ok? ==>
              var rec := GetSrvRecord("_moray", "_tcp", host, dns, pick).value;
              && (LookupIp(rec.target, dns).Err? ==> r == Err(LookupIp(rec.target, dns).error))
              && (LookupIp(rec.target, dns).Ok? ==> r == Ok(SocketAddr(LookupIp(rec.target, dns).value, rec.port)))
  {
    match GetSrvRecord("_moray", "_tcp", host, dns, pick)
    case Err(e) => Err(e)
    case Ok(rec) =>
      match LookupIp(rec.target, dns)
      case Err(e) => Err(e)
      case Ok(ip) => Ok(SocketAddr(ip, rec.port))
  }

  /** When every candidate's target has an address, discovery succeeds for
      every draw. */
  lemma ResolvableCandidatesAlwaysYieldAddress(host: string, dns: Dns, pick: nat)
    requires dns.srv(SrvQuery("_moray", "_tcp", host)).Ok?
    requires |dns.srv(SrvQuery("_moray", "_tcp", host)).value| > 0
    requires forall rec :: rec in dns.srv(SrvQuery("_moray", "_tcp", host)).value ==>
               dns.hosts(rec.target).Ok? && |dns.hosts(rec.target).value| > 0
    ensures GetMoraySrvSockaddr(host, dns, pick).Ok?
  {
    var rec := GetSrvRecord("_moray", "_tcp", host, dns, pick).value;
    assert LookupIp(rec.target, dns).Ok?;
  }

  /** `create_client`: discover the shard's address and connect to it.
      `connect` stands for `MorayClient::new`, `None` meaning it succeeded. */
  function CreateClient(shard: u32, domain: string, dns: Dns, pick: nat, connect: SocketAddr -> Option<Error>)
    : (r: Result<MorayClient, Error>)
    ensures r.Ok? ==> ServedBy(MorayDomain(shard, domain), dns, r.value.addr) && connect(r.value.addr).None?
    ensures dns.srv(MorayQuery(shard, domain)) == Ok([]) ==> r == Err(CatchAll)
    ensures dns.srv(MorayQuery(shard, domain)).Err? ==> r == Err(dns.srv(MorayQuery(shard, domain)).error)
    ensures GetMoraySrvSockaddr(MorayDomain(shard, domain), dns, pick).Err? ==>
              r == Err(GetMoraySrvSockaddr(MorayDomain(shard, domain), dns, pick).error)
    // the client is connected to the one address discovered, and a refused connection is an error
    ensures r.Ok? ==> GetMoraySrvSockaddr(MorayDomain(shard, domain), dns, pick) == Ok(r.value.addr)
    ensures (GetMoraySrvSockaddr(MorayDomain(shard, domain), dns, pick).Ok? &&
             connect(GetMoraySrvSockaddr(MorayDomain(shard, domain), dns, pick).value).Some?) ==> r.Err?
    ensures r.Err? && GetMoraySrvSockaddr(MorayDomain(shard, domain), dns, pick).Ok? ==>
              connect(GetMoraySrvSockaddr(MorayDomain(shard, domain), dns, pick).value) == Some(r.error)
  {
    match GetMoraySrvSockaddr(MorayDomain(shard, domain), dns, pick)
    case Err(e) => Err(e)
    case Ok(addr) =>
      match connect(addr)
      case Some(e) => Err(e)
      case None => Ok(MorayClient(addr))
  }
}
