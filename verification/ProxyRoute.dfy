/** Which local port a request goes to, and the path it is sent with. */
module ProxyRoute {
  import opened Common
  import opened CText

  datatype Service = Im | BroadcastPtt | Audio | Video | File | Contact | Settings | Location

  /** The configured ports. */
  datatype Ports = Ports(
    dest: int, im: int, file: int, audio: int, video: int, contact: int, settings: int, brPtt: int, location: int)

  const RULES := 11

  /** The rule table; its order does not matter for a longest match. */
  function Rule(k: nat): (string, Service)
    requires k < RULES
  {
    match k
    case 0 => ("/im", Im)
    case 1 => ("/audio", Audio)
    case 2 => ("/audio/ptt/broadcast", BroadcastPtt)
    case 3 => ("/video", Video)
    case 4 => ("/file", File)
    case 5 => ("/contact", Contact)
    case 6 => ("/group", Contact)
    case 7 => ("/settings", Settings)
    case 8 => ("/location", Location)
    case 9 => ("/v0/ap/location", Location)
    case 10 => ("/v0/ap/location/setting", Location)
  }

  /** Two rules that match one path start alike: they are the same, or one extends the other. */
  lemma MatchesAlike(path: string, j: nat, k: nat)
    requires j < RULES && k < RULES && Matches(path, j) && Matches(path, k)
    ensures j == k || {j, k} == {1, 2} || {j, k} == {9, 10}
  {
    assert path[1] == Rule(j).0[1] == Rule(k).0[1];
    assert path[2] == Rule(j).0[2] == Rule(k).0[2];
  }

  function PortOf(p: Ports, svc: Option<Service>): int
  {
    match svc
    case None => p.dest
    case Some(Im) => p.im
    case Some(BroadcastPtt) => p.brPtt
    case Some(Audio) => p.audio
    case Some(Video) => p.video
    case Some(File) => p.file
    case Some(Contact) => p.contact
    case Some(Settings) => p.settings
    case Some(Location) => p.location
  }

  predicate Matches(path: string, k: nat)
    requires k < RULES
  {
    StartsWith(path, Rule(k).0)
  }

  /** `svc` belongs to the longest rule that is a prefix of `path`, or no rule is one. */
  ghost predicate LongestMatch(path: string, svc: Option<Service>)
  {
    match svc
    case None => forall k :: 0 <= k < RULES ==> !Matches(path, k)
    case Some(v) => exists k :: 0 <= k < RULES && LongestAt(path, k) && Rule(k).1 == v
  }

  ghost predicate LongestAt(path: string, k: nat)
    requires k < RULES
  {
    Matches(path, k) && forall j :: 0 <= j < RULES && Matches(path, j) ==> |Rule(j).0| <= |Rule(k).0|
  }

  lemma LongestMatchUnique(path: string, a: Option<Service>, b: Option<Service>)
    requires LongestMatch(path, a) && LongestMatch(path, b)
    ensures a == b
  {
    if a.Some? && b.Some? {
      var i: nat :| i < RULES && LongestAt(path, i) && Rule(i).1 == a.value;
      var j: nat :| j < RULES && LongestAt(path, j) && Rule(j).1 == b.value;
      MatchesAlike(path, i, j);
    }
  }

  lemma LongestMatchExists(path: string) returns (svc: Option<Service>)
    ensures LongestMatch(path, svc)
  {
    if k: nat :| k < RULES && Matches(path, k) {
      var best := if k == 1 && Matches(path, 2) then 2 else if k == 9 && Matches(path, 10) then 10 else k;
      FirstIsLongest(path, best);
      svc := Some(Rule(best).1);
    } else {
      svc := None;
    }
  }

  const SCHEME_END := "://"

  /** The part of a request target from its path on: after "://" if there is one, from the first
      slash; "/" if there is none. This is the path the proxy sends upstream. */
  function ForwardPath(target: string): (p: string)
    ensures p != "" && p[0] == '/'
  {
    var from := match FindSub(target, SCHEME_END) case None => target case Some(i) => target[i + 3..];
    match IndexOf(from, '/')
    case None => "/"
    case Some(j) => from[j..]
  }

  /** The chain of prefix tests, in the order of the code. */
  method MatchRules(path: string, ports: Ports) returns (port: int, ghost svc: Option<Service>)
    ensures LongestMatch(path, svc) && port == PortOf(ports, svc)
    ensures exists v :: LongestMatch(path, v) && port == PortOf(ports, v)
    ensures GoesTo(path, ports, if port == 0 then ports.dest else port)
  {
    MatchGoes(path, ports);
    hide LongestMatch, StartsWith, GoesTo;
    if StartsWith(path, "/im") {
      FirstIsLongest(path, 0);
      return ports.im, Some(Im);
    }
    if StartsWith(path, "/audio/ptt/broadcast") {
      FirstIsLongest(path, 2);
      return ports.brPtt, Some(BroadcastPtt);
    }
    if StartsWith(path, "/audio") {
      FirstIsLongest(path, 1);
      return ports.audio, Some(Audio);
    }
    if StartsWith(path, "/video") {
      FirstIsLongest(path, 3);
      return ports.video, Some(Video);
    }
    if StartsWith(path, "/file") {
      FirstIsLongest(path, 4);
      return ports.file, Some(File);
    }
    if StartsWith(path, "/contact") || StartsWith(path, "/group") {
      FirstIsLongest(path, if StartsWith(path, "/contact") then 5 else 6);
      return ports.contact, Some(Contact);
    }
    if StartsWith(path, "/settings") {
      FirstIsLongest(path, 7);
      return ports.settings, Some(Settings);
    }
    if StartsWith(path, "/location") || StartsWith(path, "/v0/ap/location")
       || StartsWith(path, "/v0/ap/location/setting") {
      FirstIsLongest(path, if StartsWith(path, "/location") then 8
                           else if StartsWith(path, "/v0/ap/location/setting") then 10 else 9);
      return ports.location, Some(Location);
    }
    NoRuleMatches(path);
    return ports.dest, None;
  }

  /** `port` is where a request with the path `p` goes, prefix by prefix: the port configured for it,
      or the default port where that is 0. */
  predicate GoesTo(p: string, ports: Ports, port: int)
  {
    && ("/im" <= p ==> port == if ports.im == 0 then ports.dest else ports.im)
    && ("/audio/ptt/broadcast" <= p ==> port == if ports.brPtt == 0 then ports.dest else ports.brPtt)
    && ("/audio" <= p && !("/audio/ptt/broadcast" <= p) ==>
          port == if ports.audio == 0 then ports.dest else ports.audio)
    && ("/video" <= p ==> port == if ports.video == 0 then ports.dest else ports.video)
    && ("/file" <= p ==> port == if ports.file == 0 then ports.dest else ports.file)
    && ("/contact" <= p || "/group" <= p ==> port == if ports.contact == 0 then ports.dest else ports.contact)
    && ("/settings" <= p ==> port == if ports.settings == 0 then ports.dest else ports.settings)
    && ("/location" <= p || "/v0/ap/location" <= p || "/v0/ap/location/setting" <= p ==>
          port == if ports.location == 0 then ports.dest else ports.location)
    && (!("/im" <= p) && !("/audio" <= p) && !("/video" <= p) && !("/file" <= p) && !("/contact" <= p)
        && !("/group" <= p) && !("/settings" <= p) && !("/location" <= p) && !("/v0/ap/location" <= p) ==>
          port == ports.dest)
  }

  /** The service of the longest rule that matches a path, if one does. */
  ghost function ServiceOf(path: string): (svc: Option<Service>)
    ensures LongestMatch(path, svc)
  {
    assert exists svc :: LongestMatch(path, svc) by {
      var svc := LongestMatchExists(path);
    }
    var svc :| LongestMatch(path, svc);
    svc
  }

  function PortOrDefault(ports: Ports, svc: Option<Service>): int
  {
    if PortOf(ports, svc) == 0 then ports.dest else PortOf(ports, svc)
  }

  /** The port a request target is routed to. */
  ghost function PortFor(target: string, ports: Ports): int
  {
    PortOrDefault(ports, ServiceOf(ForwardPath(target)))
  }

  /** The code finds the port of the longest rule that matches the path it sends upstream, or
      the default port; the rule is unique. */
  method ParseProxyPort(target: string, ports: Ports) returns (port: int, ghost svc: Option<Service>)
    ensures LongestMatch(ForwardPath(target), svc)
    ensures port == if PortOf(ports, svc) == 0 then ports.dest else PortOf(ports, svc)
    ensures port == PortFor(target, ports)
    ensures GoesTo(ForwardPath(target), ports, port)
  {
    PortForGoes(target, ports);
    hide GoesTo;
    port, svc := ports.dest, None;
    NoRuleMatches("/");
    label lookup: {
      if |target| <= 0 {
        break lookup;
      }
      var pos := FindSub(target, SCHEME_END);
      var from := if pos.Some? then target[pos.value + 3..] else target;
      var slash := IndexOf(from, '/');
      if slash.None? {
        break lookup;
      }
      port, svc := MatchRules(from[slash.value..], ports);
    }
    if port == 0 {
      port := ports.dest;
    }
    PortForUnique(target, ports, svc);
  }

  /** A path with one of the prefixes has that rule's service, unless the longer rule matches too. */
  lemma PrefixDecides(path: string, k: nat)
    requires k < RULES && Rule(k).0 <= path && (k == 1 ==> !("/audio/ptt/broadcast" <= path))
    ensures ServiceOf(path) == Some(Rule(k).1)
  {
    if k == 9 && Matches(path, 10) {
      ServiceIs(path, 10);
    } else {
      ServiceIs(path, k);
    }
  }

  lemma AudioDecides(p: string)
    ensures "/im" <= p ==> ServiceOf(p) == Some(Im)
    ensures "/audio/ptt/broadcast" <= p ==> ServiceOf(p) == Some(BroadcastPtt)
    ensures "/audio" <= p && !("/audio/ptt/broadcast" <= p) ==> ServiceOf(p) == Some(Audio)
  {
    hide ServiceOf;
    if "/im" <= p { PrefixDecides(p, 0); }
    if "/audio/ptt/broadcast" <= p { PrefixDecides(p, 2); }
    if "/audio" <= p && !("/audio/ptt/broadcast" <= p) { PrefixDecides(p, 1); }
  }

  lemma FileDecides(p: string)
    ensures "/video" <= p ==> ServiceOf(p) == Some(Video)
    ensures "/file" <= p ==> ServiceOf(p) == Some(File)
    ensures "/contact" <= p || "/group" <= p ==> ServiceOf(p) == Some(Contact)
    ensures "/settings" <= p ==> ServiceOf(p) == Some(Settings)
  {
    hide ServiceOf;
    if "/video" <= p { PrefixDecides(p, 3); }
    if "/file" <= p { PrefixDecides(p, 4); }
    if "/contact" <= p { PrefixDecides(p, 5); }
    if "/group" <= p { PrefixDecides(p, 6); }
    if "/settings" <= p { PrefixDecides(p, 7); }
  }

  lemma LocationDecides(p: string)
    ensures "/location" <= p || "/v0/ap/location" <= p || "/v0/ap/location/setting" <= p ==>
              ServiceOf(p) == Some(Location)
  {
    hide ServiceOf;
    if "/location" <= p { PrefixDecides(p, 8); }
    if "/v0/ap/location" <= p { PrefixDecides(p, 9); }
    if "/v0/ap/location/setting" <= p { PrefixDecides(p, 10); }
  }

  lemma PathGoes(p: string, ports: Ports)
    ensures GoesTo(p, ports, PortOrDefault(ports, ServiceOf(p)))
  {
    hide ServiceOf, LongestMatch;
    AudioDecides(p);
    FileDecides(p);
    LocationDecides(p);
    if ServiceOf(p).Some? {
      SomePrefix(p);
    }
  }

  lemma MatchGoes(p: string, ports: Ports)
    ensures forall svc :: LongestMatch(p, svc) ==> GoesTo(p, ports, PortOrDefault(ports, svc))
  {
    PathGoes(p, ports);
    hide LongestMatch, GoesTo, ServiceOf;
    forall svc | LongestMatch(p, svc) ensures GoesTo(p, ports, PortOrDefault(ports, svc)) {
      LongestMatchUnique(p, svc, ServiceOf(p));
    }
  }

  lemma SomePrefix(p: string)
    requires ServiceOf(p).Some?
    ensures "/im" <= p || "/audio" <= p || "/video" <= p || "/file" <= p || "/contact" <= p || "/group" <= p
            || "/settings" <= p || "/location" <= p || "/v0/ap/location" <= p
  {
    hide ServiceOf;
    if !("/im" <= p || "/audio" <= p || "/video" <= p || "/file" <= p || "/contact" <= p || "/group" <= p
         || "/settings" <= p || "/location" <= p || "/v0/ap/location" <= p) {
      NoRuleMatches(p);
      LongestMatchUnique(p, None, ServiceOf(p));
    }
  }

  lemma PortForGoes(target: string, ports: Ports)
    ensures GoesTo(ForwardPath(target), ports, PortFor(target, ports))
  {
    PathGoes(ForwardPath(target), ports);
  }

  /** One port is right for a path. */
  lemma GoesToOne(p: string, ports: Ports, a: int, b: int)
    requires GoesTo(p, ports, a) && GoesTo(p, ports, b)
    ensures a == b
  {
  }

  lemma PortForUnique(target: string, ports: Ports, svc: Option<Service>)
    requires LongestMatch(ForwardPath(target), svc)
    ensures PortFor(target, ports) == if PortOf(ports, svc) == 0 then ports.dest else PortOf(ports, svc)
  {
    LongestMatchUnique(ForwardPath(target), svc, ServiceOf(ForwardPath(target)));
  }

  lemma NoRuleMatches(path: string)
    requires !StartsWith(path, "/im") && !StartsWith(path, "/audio") && !StartsWith(path, "/video")
    requires !StartsWith(path, "/file") && !StartsWith(path, "/contact") && !StartsWith(path, "/group")
    requires !StartsWith(path, "/settings") && !StartsWith(path, "/location") && !StartsWith(path, "/v0/ap/location")
    ensures LongestMatch(path, None)
  {
    assert "/audio" <= "/audio/ptt/broadcast" && "/v0/ap/location" <= "/v0/ap/location/setting";
    forall k | 0 <= k < RULES ensures !Matches(path, k) {
      if k == 2 { assert Matches(path, 2) ==> StartsWith(path, "/audio"); }
      if k == 10 { assert Matches(path, 10) ==> StartsWith(path, "/v0/ap/location"); }
    }
  }

  /** Only two rules extend another one, so every other match is the longest. */
  lemma FirstIsLongest(path: string, k: nat)
    requires k < RULES && Matches(path, k)
    requires k == 1 ==> !Matches(path, 2)
    requires k == 9 ==> !Matches(path, 10)
    ensures LongestMatch(path, Some(Rule(k).1))
  {
    forall j: nat | j < RULES && Matches(path, j) ensures |Rule(j).0| <= |Rule(k).0| {
      MatchesAlike(path, j, k);
    }
    assert LongestAt(path, k);
  }

  /** A target in origin form is sent and routed as it stands exactly when "://" does not occur in
      it; otherwise the code takes what follows for an authority and a path. */
  lemma OriginFormExact(p: string)
    requires p != "" && p[0] == '/'
    ensures ForwardPath(p) == p <==> FindSub(p, SCHEME_END).None?
  {
    match FindSub(p, SCHEME_END) {
      case None => assert IndexOf(p, '/') == Some(0);
      case Some(i) =>
        var from := p[i + 3..];
        assert |ForwardPath(p)| <= |from| || ForwardPath(p) == "/";
        assert |p| >= 3;
    }
  }

  /** The path that is sent: of what follows the first "://", or of the whole target without one, the
      part from the first slash on; "/" when there is no slash. */
  lemma ForwardPathExactly(target: string, scheme: string, authority: string, p: string)
    requires '/' !in authority && (p == "" || p[0] == '/')
    requires || (target == authority + p && forall i :: 0 <= i <= |target| ==> !OccursAt(target, "://", i))
             || (target == scheme + ("://" + (authority + p))
                 && forall i :: 0 <= i < |scheme| ==> !OccursAt(target, "://", i))
    ensures ForwardPath(target) == if p == "" then "/" else p
  {
    var rest := authority + p;
    SlashFound(authority, p);
    hide IndexOf, OccursAt;
    hide FindSub;
    if target == scheme + ("://" + rest) {
      OccursAfter(scheme, rest);
      Parts(scheme, SCHEME_END + rest);
      Parts(scheme + SCHEME_END, rest);
      Assoc(scheme, SCHEME_END, rest);
    }
  }

  lemma SlashFound(authority: string, p: string)
    requires '/' !in authority && (p == "" || p[0] == '/')
    ensures var j := IndexOf(authority + p, '/');
            if p == "" then j.None? else j == Some(|authority|) && (authority + p)[|authority|..] == p
  {
    if p == "" {
      assert authority + p == authority;
    } else {
      SlashAfter(authority, p);
    }
  }

  lemma OccursStarts(t: string, j: nat)
    requires OccursAt(t, SCHEME_END, j)
    ensures j < |t| && t[j] == ':'
  {
    assert t[j] == t[j..j + 3][0];
  }

  lemma OccursAfter(scheme: string, rest: string)
    ensures OccursAt(scheme + (SCHEME_END + rest), SCHEME_END, |scheme|)
  {
    var t := scheme + (SCHEME_END + rest);
    assert t[|scheme|..|scheme| + 3] == SCHEME_END;
  }

  lemma SchemeFound(scheme: string, rest: string)
    requires ':' !in scheme
    ensures FindSub(scheme + (SCHEME_END + rest), SCHEME_END) == Some(|scheme|)
  {
    var t := scheme + (SCHEME_END + rest);
    OccursAfter(scheme, rest);
    hide FindSub, OccursAt;
    forall j: nat | j < |scheme| ensures !OccursAt(t, SCHEME_END, j) {
      assert t[j] == scheme[j];
      if OccursAt(t, SCHEME_END, j) {
        OccursStarts(t, j);
        assert false;
      }
    }
  }

  /** A target in absolute form is sent and routed by its path. */
  lemma AbsoluteForm(scheme: string, authority: string, p: string)
    requires ':' !in scheme && '/' !in authority && p != "" && p[0] == '/'
    ensures ForwardPath(scheme + SCHEME_END + authority + p) == p
  {
    var rest := authority + p;
    SchemeFound(scheme, rest);
    SlashAfter(authority, p);
    Parts(scheme, SCHEME_END + rest);
    Parts(scheme + SCHEME_END, rest);
    Assoc(scheme, SCHEME_END, rest);
    Assoc(scheme + SCHEME_END, authority, p);
    hide FindSub, IndexOf;
  }

  lemma SlashAfter(authority: string, p: string)
    requires '/' !in authority && p != "" && p[0] == '/'
    ensures IndexOf(authority + p, '/') == Some(|authority|)
    ensures (authority + p)[|authority|..] == p
  {
    var s := authority + p;
    assert forall x :: 0 <= x < |authority| ==> s[x] == authority[x];
    assert s[|authority|] == '/';
    var j := IndexOf(s, '/');
    assert forall x :: 0 <= x < |s| ==> s[x] in s;
    assert j.Some?;
    assert forall x :: 0 <= x < j.value ==> s[..j.value][x] == s[x] && s[x] != '/';
  }

  /** The two forms of one target are sent with the same path exactly when it holds no "://". */
  lemma FormsAgree(scheme: string, authority: string, p: string)
    requires ':' !in scheme && '/' !in authority && p != "" && p[0] == '/'
    ensures ForwardPath(scheme + SCHEME_END + authority + p) == ForwardPath(p) <==> FindSub(p, SCHEME_END).None?
  {
    AbsoluteForm(scheme, authority, p);
    OriginFormExact(p);
  }

  /** One port for each service. */
  const DISTINCT := Ports(1, 2, 3, 4, 5, 6, 7, 8, 9)

  lemma DistinctPorts(a: Option<Service>, b: Option<Service>)
    requires PortOrDefault(DISTINCT, a) == PortOrDefault(DISTINCT, b)
    ensures a == b
  {
  }

  /** The two forms of one target go to the same port, whatever the ports are, exactly when the path
      and what the code takes for the path of its origin form have the same service. */
  lemma RoutedAlike(scheme: string, authority: string, p: string)
    requires ':' !in scheme && '/' !in authority && p != "" && p[0] == '/'
    ensures (forall ports :: PortFor(scheme + SCHEME_END + authority + p, ports) == PortFor(p, ports))
            <==> ServiceOf(p) == ServiceOf(ForwardPath(p))
    ensures FindSub(p, SCHEME_END).None? ==>
              forall ports :: PortFor(scheme + SCHEME_END + authority + p, ports) == PortFor(p, ports)
  {
    AbsoluteForm(scheme, authority, p);
    OriginFormExact(p);
    hide ForwardPath, ServiceOf, PortOrDefault;
    if forall ports :: PortFor(scheme + SCHEME_END + authority + p, ports) == PortFor(p, ports) {
      assert PortFor(scheme + SCHEME_END + authority + p, DISTINCT) == PortFor(p, DISTINCT);
      DistinctPorts(ServiceOf(p), ServiceOf(ForwardPath(p)));
    }
  }

  lemma ServiceIs(path: string, k: nat)
    requires k < RULES && Matches(path, k) && (k == 1 ==> !Matches(path, 2)) && (k == 9 ==> !Matches(path, 10))
    ensures ServiceOf(path) == Some(Rule(k).1)
  {
    FirstIsLongest(path, k);
    LongestMatchUnique(path, ServiceOf(path), Some(Rule(k).1));
  }

  /** A URL in the query of an origin-form target decides the route: this one is for the messaging
      service and goes to the audio port, while its absolute form goes to the messaging port. */
  lemma QueryDecidesRoute(ports: Ports)
    ensures var p := "/im?u=a://b/audio";
            && ForwardPath(p) == "/audio" && PortFor(p, ports) == PortOrDefault(ports, Some(Audio))
            && ForwardPath("http://h" + p) == p && PortFor("http://h" + p, ports) == PortOrDefault(ports, Some(Im))
  {
    var p := "/im?u=a://b/audio";
    hide ForwardPath, ServiceOf;
    AbsoluteForm("/im?u=a", "b", "/audio");
    assert "/im?u=a" + SCHEME_END + "b" + "/audio" == p;
    AbsoluteForm("http", "h", p);
    assert "http" + SCHEME_END + "h" + p == "http://h" + p;
    assert Matches("/audio", 1) && !Matches("/audio", 2);
    ServiceIs("/audio", 1);
    assert p[..3] == "/im";
    assert Matches(p, 0);
    ServiceIs(p, 0);
  }

  /** "://" in the path does not by itself change the route. */
  lemma SchemeInPathMayNotMatter(ports: Ports)
    ensures var p := "/im/a://b/im"; FindSub(p, SCHEME_END).Some? && PortFor("http://h" + p, ports) == PortFor(p, ports)
  {
    var p := "/im/a://b/im";
    hide ForwardPath, ServiceOf;
    AbsoluteForm("/im/a", "b", "/im");
    assert "/im/a" + SCHEME_END + "b" + "/im" == p;
    AbsoluteForm("http", "h", p);
    assert "http" + SCHEME_END + "h" + p == "http://h" + p;
    OriginFormExact(p);
    assert p[..3] == "/im";
    assert Matches(p, 0) && Matches("/im", 0);
    ServiceIs("/im", 0);
    ServiceIs(p, 0);
    assert |p| != |"/im"|;
  }
}
