/** Where a region redirect may lead: `redirected_aws_authority` of `src/client/request/retry.rs`. */
module RegionRedirect {
  import opened Wire
  import opened Endpoint

  const HTTPS: Text := Ascii("https")
  const AWS: Text := Ascii("amazonaws.com")
  const AWS_CHINA: Text := Ascii("amazonaws.com.cn")
  const S3: Text := Ascii("s3")
  const S3_DUALSTACK: Text := Ascii("s3.dualstack")
  const S3_FIPS: Text := Ascii("s3-fips")
  const S3_FIPS_DUALSTACK: Text := Ascii("s3-fips.dualstack")

  /** The regions that `controlled_region_redirect` lets through. */
  predicate ValidRegion(region: Text) {
    0 < |region| <= 64 && forall i :: 0 <= i < |region| ==> IsAlphanumeric(region[i]) || region[i] == HYPHEN
  }

  /** `split_once(':')`: the part before the first colon. */
  function Host(authority: Text): Text {
    if authority == [] || authority[0] == COLON then [] else [authority[0]] + Host(authority[1..])
  }

  function StripSuffix(t: Text, suffix: Text): Option<Text> {
    if |suffix| <= |t| && t[|t| - |suffix|..] == suffix then Some(t[..|t| - |suffix|]) else None
  }

  function StripPrefix(t: Text, prefix: Text): Option<Text> {
    if prefix <= t then Some(t[|prefix|..]) else None
  }

  predicate IsRegionalName(name: Text, prefix: Text) {
    match StripPrefix(name, prefix)
    case None => false
    case Some(rest) => rest != [] && rest[0] == DOT && ValidRegion(rest[1..])
  }

  /** Which S3 service a host name without its domain stands for. */
  function ServiceName(name: Text): Option<Text> {
    if name == S3 || IsRegionalName(name, S3) then Some(S3)
    else if IsRegionalName(name, S3_DUALSTACK) then Some(S3_DUALSTACK)
    else if IsRegionalName(name, S3_FIPS) then Some(S3_FIPS)
    else if IsRegionalName(name, S3_FIPS_DUALSTACK) then Some(S3_FIPS_DUALSTACK)
    else None
  }

  datatype Service = Service(name: Text, domain: Text)

  function ServiceAt(name: Text, domain: Text): Option<Service> {
    match ServiceName(name)
    case None => None
    case Some(service) => Some(Service(service, domain))
  }

  function ServiceOf(host: Text): Option<Service> {
    match StripSuffix(host, [DOT] + AWS_CHINA)
    case Some(name) => ServiceAt(name, AWS_CHINA)
    case None =>
      match StripSuffix(host, [DOT] + AWS)
      case Some(name) => ServiceAt(name, AWS)
      case None => None
  }

  function RegionalHost(service: Service, region: Text): Text {
    service.name + [DOT] + region + [DOT] + service.domain
  }

  /** `redirected_aws_authority`. */
  function RedirectedAuthority(scheme: Text, authority: Text, region: Text): Option<Text> {
    if scheme != HTTPS then None
    else
      match ServiceOf(Host(authority))
      case None => None
      case Some(service) => Some(RegionalHost(service, region))
  }

  // ----- what a redirect keeps --------------------------------------------------------------

  predicate IsService(service: Service) {
    service.name in {S3, S3_DUALSTACK, S3_FIPS, S3_FIPS_DUALSTACK} && service.domain in {AWS, AWS_CHINA}
  }

  lemma ServiceOfIsService(host: Text)
    ensures ServiceOf(host).Some? ==> IsService(ServiceOf(host).value)
  {
    hide IsRegionalName, StripSuffix;
  }

  /** A name below another label is no region: it has a dot in it. */
  lemma DottedIsNoRegion(name: Text, prefix: Text, i: nat)
    requires |prefix| + 1 <= i < |name| && name[i] == DOT
    ensures !IsRegionalName(name, prefix)
  {
    if prefix <= name {
      var rest := name[|prefix|..];
      assert rest[1..][i - |prefix| - 1] == name[i];
    }
  }

  lemma RegionalName(prefix: Text, region: Text)
    requires ValidRegion(region)
    ensures IsRegionalName(prefix + [DOT] + region, prefix)
  {
    var name := prefix + [DOT] + region;
    assert name[|prefix|..] == [DOT] + region;
  }

  /** The service of a regional host name can be read back from it. */
  lemma RegionalServiceName(prefix: Text, region: Text)
    requires ValidRegion(region) && prefix in {S3, S3_DUALSTACK, S3_FIPS, S3_FIPS_DUALSTACK}
    ensures ServiceName(prefix + [DOT] + region) == Some(prefix)
  {
    hide IsRegionalName, ValidRegion;
    var name := prefix + [DOT] + region;
    RegionalName(prefix, region);
    assert |S3| == 2 && |S3_DUALSTACK| == 12 && |S3_FIPS| == 7 && |S3_FIPS_DUALSTACK| == 17;
    assert name[|prefix|] == DOT;
    if prefix == S3_DUALSTACK {
      DottedIsNoRegion(name, S3, 12);
    } else if prefix == S3_FIPS || prefix == S3_FIPS_DUALSTACK {
      FipsIsNotPlain(name, prefix);
      if prefix == S3_FIPS_DUALSTACK {
        DottedIsNoRegion(name, S3_FIPS, 17);
      }
    }
  }

  lemma FipsIsNotPlain(name: Text, prefix: Text)
    requires prefix in {S3_FIPS, S3_FIPS_DUALSTACK} && prefix <= name
    ensures name != S3 && !IsRegionalName(name, S3) && !IsRegionalName(name, S3_DUALSTACK)
  {
    assert name[2] == prefix[2] == HYPHEN;
    assert S3_DUALSTACK[2] == DOT;
    if S3 <= name {
      assert name[|S3|..][0] == name[2];
    }
  }

  lemma {:induction false} HostWithoutColon(t: Text)
    requires COLON !in t
    ensures Host(t) == t
  {
    if t != [] {
      HostWithoutColon(t[1..]);
      assert t == [t[0]] + t[1..];
    }
  }

  lemma RegionalHostHasNoColon(service: Service, region: Text)
    requires IsService(service) && ValidRegion(region)
    ensures COLON !in RegionalHost(service, region)
  {
    assert COLON !in S3 && COLON !in S3_DUALSTACK && COLON !in S3_FIPS && COLON !in S3_FIPS_DUALSTACK;
    assert COLON !in AWS && COLON !in AWS_CHINA && COLON !in region;
  }

  lemma StripWhole(front: Text, suffix: Text)
    ensures StripSuffix(front + suffix, suffix) == Some(front)
  {
    var t := front + suffix;
    assert t[|t| - |suffix|..] == suffix && t[..|t| - |suffix|] == front;
  }

  lemma NotInChina(front: Text)
    ensures StripSuffix(front + [DOT] + AWS, [DOT] + AWS_CHINA) == None
  {
    var t, china := front + [DOT] + AWS, [DOT] + AWS_CHINA;
    assert t[|t| - 1] == AWS[|AWS| - 1] == 'm' as int;
    if |china| <= |t| {
      assert china[|china| - 1] == AWS_CHINA[|AWS_CHINA| - 1] == 'n' as int;
      assert t[|t| - |china|..][|china| - 1] == t[|t| - 1];
    }
  }

  lemma RegionalHostService(service: Service, region: Text)
    requires IsService(service) && ValidRegion(region)
    ensures ServiceOf(RegionalHost(service, region)) == Some(service)
  {
    hide ServiceName, StripSuffix, ValidRegion;
    var name := service.name + [DOT] + region;
    var suffix := [DOT] + service.domain;
    assert RegionalHost(service, region) == name + suffix == name + [DOT] + service.domain;
    RegionalServiceName(service.name, region);
    StripWhole(name, suffix);
    if service.domain == AWS {
      NotInChina(name);
    }
  }

  /**
    A redirect moves to another region of the same service and domain, over HTTPS, and redirecting
    from there leads where redirecting from the start would.
   */
  lemma RedirectKeepsService(scheme: Text, authority: Text, region: Text, other: Text)
    requires ValidRegion(region) && RedirectedAuthority(scheme, authority, region).Some?
    ensures var moved := RedirectedAuthority(scheme, authority, region).value;
            && scheme == HTTPS
            && ServiceOf(Host(moved)) == ServiceOf(Host(authority))
            && RedirectedAuthority(scheme, moved, other) == RedirectedAuthority(scheme, authority, other)
  {
    hide ServiceOf, Host, RegionalHost, IsService;
    ServiceOfIsService(Host(authority));
    var service := ServiceOf(Host(authority)).value;
    var moved := RegionalHost(service, region);
    RegionalHostHasNoColon(service, region);
    HostWithoutColon(moved);
    RegionalHostService(service, region);
  }

  // ----- which hosts are redirected ------------------------------------------------------------------

  ghost predicate HasService(host: Text, name: Text, domain: Text) {
    && domain in {Ascii("amazonaws.com"), Ascii("amazonaws.com.cn")}
    && name in {Ascii("s3"), Ascii("s3.dualstack"), Ascii("s3-fips"), Ascii("s3-fips.dualstack")}
    && ((name == Ascii("s3") && host == name + Ascii(".") + domain)
        || exists region :: ValidRegion(region) && host == name + Ascii(".") + region + Ascii(".") + domain)
  }

  lemma BareService(domain: Text)
    requires domain in {AWS, AWS_CHINA}
    ensures ServiceOf(S3 + [DOT] + domain) == Some(Service(S3, domain))
  {
    hide StripSuffix, IsRegionalName;
    var suffix := [DOT] + domain;
    assert S3 + [DOT] + domain == S3 + suffix;
    StripWhole(S3, suffix);
    if domain == AWS {
      NotInChina(S3);
    }
  }

  lemma StripMeaning(t: Text, suffix: Text)
    requires StripSuffix(t, suffix).Some?
    ensures t == StripSuffix(t, suffix).value + suffix
  {
  }

  lemma RegionalNameParts(name: Text, prefix: Text)
    requires IsRegionalName(name, prefix)
    ensures exists region :: ValidRegion(region) && name == prefix + [DOT] + region
  {
    var region := name[|prefix|..][1..];
    assert name == prefix + [DOT] + region;
  }

  lemma ServiceNameParts(name: Text)
    requires ServiceName(name).Some?
    ensures var prefix := ServiceName(name).value;
            || (prefix == S3 && name == S3)
            || exists region :: ValidRegion(region) && name == prefix + [DOT] + region
  {
    hide IsRegionalName;
    var prefix := ServiceName(name).value;
    if name != S3 {
      RegionalNameParts(name, prefix);
    }
  }

  lemma ServiceParts(host: Text)
    requires ServiceOf(host).Some?
    ensures var s := ServiceOf(host).value;
            || (s.name == S3 && host == S3 + [DOT] + s.domain)
            || exists region :: ValidRegion(region) && host == s.name + [DOT] + region + [DOT] + s.domain
  {
    hide ServiceName, StripSuffix, ValidRegion;
    var s := ServiceOf(host).value;
    var suffix := [DOT] + s.domain;
    var name := StripSuffix(host, suffix).value;
    StripMeaning(host, suffix);
    ServiceNameParts(name);
    if name != S3 || s.name != S3 {
      var region :| ValidRegion(region) && name == s.name + [DOT] + region;
      assert host == s.name + [DOT] + region + [DOT] + s.domain;
    } else {
      assert host == S3 + [DOT] + s.domain;
    }
  }

  /** A host belongs to a service exactly when it is the global S3 name or a regional name of that service. */
  lemma ServiceExactly(host: Text, name: Text, domain: Text)
    ensures ServiceOf(host) == Some(Service(name, domain)) <==> HasService(host, name, domain)
  {
    assert Ascii(".") == [DOT];
    hide ServiceOf, ValidRegion, Ascii;
    if ServiceOf(host) == Some(Service(name, domain)) {
      ServiceOfIsService(host);
      ServiceParts(host);
    }
    if HasService(host, name, domain) {
      if name == S3 && host == S3 + [DOT] + domain {
        BareService(domain);
      } else {
        var region :| ValidRegion(region) && host == name + [DOT] + region + [DOT] + domain;
        RegionalHostService(Service(name, domain), region);
      }
    }
  }

  lemma {:induction false} HostExactly(authority: Text)
    ensures COLON !in Host(authority)
    ensures authority == Host(authority) || Host(authority) + [':' as int] <= authority
  {
    if authority != [] && authority[0] != COLON {
      HostExactly(authority[1..]);
      assert authority == [authority[0]] + authority[1..];
    }
  }

  /** The redirected authority: only over HTTPS, only from an S3 host of AWS, with the region put in. */
  lemma RedirectExactly(scheme: Text, authority: Text, region: Text, moved: Text)
    ensures RedirectedAuthority(scheme, authority, region) == Some(moved) <==>
            && scheme == Ascii("https")
            && exists name, domain :: && HasService(Host(authority), name, domain)
                                      && moved == name + Ascii(".") + region + Ascii(".") + domain
  {
    assert Ascii(".") == [DOT];
    hide ServiceOf, HasService, Ascii, Host;
    var host := Host(authority);
    if ServiceOf(host).Some? {
      ServiceExactly(host, ServiceOf(host).value.name, ServiceOf(host).value.domain);
    }
    forall name, domain | HasService(host, name, domain) ensures ServiceOf(host) == Some(Service(name, domain)) {
      ServiceExactly(host, name, domain);
    }
  }

  /** Up to 64 letters, digits and hyphens. */
  lemma RegionExactly(region: Text)
    ensures ValidRegion(region) <==>
            && 1 <= |region| <= 64
            && forall i :: 0 <= i < |region| ==>
                 48 <= region[i] <= 57 || 65 <= region[i] <= 90 || 97 <= region[i] <= 122 || region[i] == 45
  {
  }
}
