/** processing_cfg: filling the daemon settings, the service context and the two registries
    from an in-memory configuration (onvif_srvd.cpp). One profile builder and one stream
    builder are reused, cleared, for all entries. */
module Config {
  import opened Text
  import opened Scan
  import opened Ipv4
  import opened ServerAddress
  import opened Context
  import opened DaemonProcess
  import opened OsKernel
  import opened EthDev
  import P = StreamProfiles
  import R = RtspStreams

  /** One entry of `profiles`. The last two fields are what the local variables of set_width
      and set_height hold when this entry is processed; they matter for blank text only. */
  datatype Entry = Entry(name: string, width: string, height: string, url: string, snapUrl: string, kind: string,
                         unsetWidth: int, unsetHeight: int)

  datatype StreamEntry = StreamEntry(pipeline: string, udpPort: string, tcpPort: string, rtspUrl: string,
                                     testStream: bool, testStreamSrc: string)

  datatype Configuration = Configuration(pidFile: string, logLevel: string, logFile: string, logFileSizeMb: int,
                                         logFileCount: int, logAsync: bool, settings: Settings, interfaces: string,
                                         tzFormat: string, scopes: seq<string>, profiles: seq<Entry>,
                                         rtspStreams: seq<StreamEntry>)

  /** Whether socket() succeeds, the interface the kernel has under the configured name, if
      any, and what the local variable of set_tz_format holds. */
  datatype Env = Env(socketOk: bool, netIf: Option<NetIf>, unsetTz: nat)

  /** The interface as the handlers see it: what the kernel answers, under the name that open()
      put into the request structure. */
  function ConfiguredIf(c: Configuration, env: Env): NetIf
    requires env.netIf.Some?
  {
    env.netIf.value.(name := c.interfaces)
  }

  datatype Exit = SaveDaemonInfo | OpenInterface | TzFormat | AddProfile | AddStream

  // ---------------------------------------------------------------- profiles: specification

  /** The profile a fresh builder gives for an entry. */
  function Build(e: Entry): P.Profile {
    var p1 := P.Apply(P.FRESH, P.SetName(Some(e.name)));
    var p2 := P.Apply(p1, P.SetWidth(e.width, e.unsetWidth));
    var p3 := P.Apply(p2, P.SetHeight(e.height, e.unsetHeight));
    var p4 := P.Apply(p3, P.SetUrl(Some(e.url)));
    var p5 := P.Apply(p4, P.SetSnapurl(Some(e.snapUrl)));
    P.Apply(p5, P.SetType(e.kind))
  }

  predicate EntryValid(e: Entry) {
    && e.name != "" && e.url != ""
    && 100 <= ReadInt(e.width, e.unsetWidth) < 10000
    && 100 <= ReadInt(e.height, e.unsetHeight) < 10000
    && e.kind in {"JPEG", "MPEG4", "H264"}
  }

  function Builds(entries: seq<Entry>): (ps: seq<P.Profile>)
    ensures |ps| == |entries|
  {
    if entries == [] then [] else [Build(entries[0])] + Builds(entries[1..])
  }

  lemma {:induction false} BuildsAt(entries: seq<Entry>, i: nat)
    requires i < |entries|
    ensures Builds(entries)[i] == Build(entries[i])
  {
    if i > 0 {
      BuildsAt(entries[1..], i - 1);
    }
  }

  /** Adding profiles one by one; None when one is refused. */
  function Register(ps: seq<P.Profile>, m: Registry): Option<Registry> {
    if ps == [] then Some(m)
    else if !P.IsValid(ps[0]) || ps[0].name in m then None
    else Register(ps[1..], m[ps[0].name := ps[0]])
  }

  /** Adding the entries one by one, each with a fresh builder. */
  function LoadProfiles(entries: seq<Entry>, m: Registry): Option<Registry> {
    Register(Builds(entries), m)
  }

  /** For non-blank width and height text the uninitialised locals play no part. */
  lemma NonBlankEntry(e: Entry, e': Entry)
    requires !Blank(e.width) && !Blank(e.height)
    requires e' == e.(unsetWidth := e'.unsetWidth, unsetHeight := e'.unsetHeight)
    ensures EntryValid(e) <==> EntryValid(e')
    ensures Build(e) == Build(e')
  {
    var p1 := P.Apply(P.FRESH, P.SetName(Some(e.name)));
    var p2 := P.Apply(p1, P.SetWidth(e.width, e.unsetWidth));
    assert p2 == P.Apply(p1, P.SetWidth(e.width, e'.unsetWidth));
    assert P.Apply(p2, P.SetHeight(e.height, e.unsetHeight)) == P.Apply(p2, P.SetHeight(e.height, e'.unsetHeight));
  }

  /** A build is valid exactly for a valid entry, and then it holds what the entry says, with
      in-range dimensions and no error text. */
  lemma BuildValid(e: Entry)
    ensures P.IsValid(Build(e)) <==> EntryValid(e)
    ensures Build(e).name == e.name
    ensures P.InRange(Build(e))
    ensures EntryValid(e) ==>
              var p := Build(e);
              && p.url == e.url && p.snapurl == e.snapUrl && p.strErr == ""
              && p.width == ReadInt(e.width, e.unsetWidth) && p.height == ReadInt(e.height, e.unsetHeight)
              && p.encoding == if e.kind == "JPEG" then 0 else if e.kind == "MPEG4" then 1 else 2
  {
  }

  ghost predicate DistinctNames(entries: seq<Entry>) {
    forall i, j | 0 <= i < j < |entries| :: entries[i].name != entries[j].name
  }

  /** The whole configuration can be added to m. */
  ghost predicate Loadable(entries: seq<Entry>, m: Registry) {
    && DistinctNames(entries)
    && forall i | 0 <= i < |entries| :: EntryValid(entries[i]) && entries[i].name !in m
  }

  lemma {:induction false} RegisterCompletesIff(ps: seq<P.Profile>, m: Registry)
    ensures Register(ps, m).Some? <==>
            && (forall i, j | 0 <= i < j < |ps| :: ps[i].name != ps[j].name)
            && (forall i | 0 <= i < |ps| :: P.IsValid(ps[i]) && ps[i].name !in m)
    decreases |ps|
  {
    if ps != [] {
      RegisterCompletesIff(ps[1..], m[ps[0].name := ps[0]]);
      assert forall i | 1 <= i < |ps| :: ps[i] == ps[1..][i - 1];
    }
  }

  lemma {:induction false} Registered(ps: seq<P.Profile>, m: Registry)
    requires Register(ps, m).Some?
    ensures var r := Register(ps, m).value;
            && |r| == |m| + |ps|
            && (forall k | k in m :: k in r && r[k] == m[k])
            && (forall i | 0 <= i < |ps| :: ps[i].name in r && r[ps[i].name] == ps[i])
            && (forall k | k in r && k !in m :: exists i :: 0 <= i < |ps| && ps[i].name == k)
    decreases |ps|
  {
    if ps != [] {
      Registered(ps[1..], m[ps[0].name := ps[0]]);
      assert forall i | 1 <= i < |ps| :: ps[i] == ps[1..][i - 1];
    }
  }

  /** Loading completes exactly when every entry is valid and the names are pairwise distinct
      and new. */
  lemma LoadCompletesIff(entries: seq<Entry>, m: Registry)
    ensures LoadProfiles(entries, m).Some? <==> Loadable(entries, m)
  {
    RegisterCompletesIff(Builds(entries), m);
    forall i | 0 <= i < |entries|
      ensures Builds(entries)[i].name == entries[i].name
      ensures P.IsValid(Builds(entries)[i]) <==> EntryValid(entries[i])
    {
      BuildsAt(entries, i);
      BuildValid(entries[i]);
    }
  }

  /** After a completed load the registry holds the old profiles and, under its own name, one
      profile per entry: the one a fresh builder gives. */
  lemma LoadedRegistry(entries: seq<Entry>, m: Registry)
    requires LoadProfiles(entries, m).Some?
    ensures var r := LoadProfiles(entries, m).value;
            && |r| == |m| + |entries|
            && (forall k | k in m :: k in r && r[k] == m[k])
            && (forall i | 0 <= i < |entries| :: entries[i].name in r && r[entries[i].name] == Build(entries[i]))
            && (forall k | k in r && k !in m :: exists i :: 0 <= i < |entries| && entries[i].name == k)
  {
    Registered(Builds(entries), m);
    forall i | 0 <= i < |entries|
      ensures Builds(entries)[i] == Build(entries[i]) && Build(entries[i]).name == entries[i].name
    {
      BuildsAt(entries, i);
      BuildValid(entries[i]);
    }
  }

  /** Every profile a load stores is filed under its own name, is in range and carries no
      error text. */
  lemma LoadedProfilesClean(entries: seq<Entry>, k: string)
    requires LoadProfiles(entries, map[]).Some? && k in LoadProfiles(entries, map[]).value
    ensures var p := LoadProfiles(entries, map[]).value[k];
            p.name == k && 100 <= p.width < 10000 && 100 <= p.height < 10000
            && 0 <= p.encoding <= 2 && p.strErr == ""
  {
    LoadedRegistry(entries, map[]);
    LoadCompletesIff(entries, map[]);
    var i :| 0 <= i < |entries| && entries[i].name == k;
    BuildValid(entries[i]);
  }

  /** The order of the entries does not matter: either no order loads, or all give the same
      registry. */
  lemma LoadOrderIrrelevant(entries: seq<Entry>, entries': seq<Entry>)
    requires multiset(entries) == multiset(entries')
    ensures LoadProfiles(entries, map[]) == LoadProfiles(entries', map[])
  {
    LoadCompletesIff(entries, map[]);
    LoadCompletesIff(entries', map[]);
    if Loadable(entries, map[]) {
      LoadablePermuted(entries, entries');
    }
    if Loadable(entries', map[]) {
      LoadablePermuted(entries', entries);
    }
    if LoadProfiles(entries, map[]).Some? {
      LoadedAlike(entries, entries');
    }
  }

  lemma SameEntries(entries: seq<Entry>, entries': seq<Entry>)
    requires multiset(entries) == multiset(entries')
    ensures forall e :: e in entries <==> e in entries'
  {
    forall e ensures e in entries <==> e in entries' {
      assert e in multiset(entries) <==> e in multiset(entries');
    }
  }

  /** Two places of equal entries count twice. */
  lemma TwoPlaces(entries: seq<Entry>, i: nat, j: nat)
    requires i < j < |entries| && entries[i] == entries[j]
    ensures multiset(entries)[entries[i]] >= 2
  {
    var a, b, c := entries[..i], entries[i + 1..j], entries[j + 1..];
    assert entries == a + [entries[i]] + b + [entries[j]] + c;
    assert multiset(entries) ==
           multiset(a) + multiset([entries[i]]) + multiset(b) + multiset([entries[j]]) + multiset(c);
  }

  lemma OnePlace(entries: seq<Entry>, e: Entry)
    requires forall i, j | 0 <= i < j < |entries| :: entries[i] != entries[j]
    ensures multiset(entries)[e] <= 1
  {
    if e in entries {
      var i :| 0 <= i < |entries| && entries[i] == e;
      assert entries == entries[..i] + [e] + entries[i + 1..];
      assert e !in entries[..i] && e !in entries[i + 1..];
      assert multiset(entries) == multiset(entries[..i]) + multiset([e]) + multiset(entries[i + 1..]);
    } else {
      assert e !in multiset(entries);
    }
  }

  lemma LoadablePermuted(entries: seq<Entry>, entries': seq<Entry>)
    requires multiset(entries) == multiset(entries') && Loadable(entries, map[])
    ensures Loadable(entries', map[])
  {
    SameEntries(entries, entries');
    forall i | 0 <= i < |entries'| ensures EntryValid(entries'[i]) {
      assert entries'[i] in entries;
      var k :| 0 <= k < |entries| && entries[k] == entries'[i];
    }
    forall i, j | 0 <= i < j < |entries'| ensures entries'[i].name != entries'[j].name {
      assert entries'[i] in entries && entries'[j] in entries;
      var k :| 0 <= k < |entries| && entries[k] == entries'[i];
      var l :| 0 <= l < |entries| && entries[l] == entries'[j];
      if k == l {
        TwoPlaces(entries', i, j);
        OnePlace(entries, entries[k]);
      }
    }
  }

  lemma LoadedAlike(entries: seq<Entry>, entries': seq<Entry>)
    requires multiset(entries) == multiset(entries')
    requires LoadProfiles(entries, map[]).Some? && LoadProfiles(entries', map[]).Some?
    ensures LoadProfiles(entries, map[]) == LoadProfiles(entries', map[])
  {
    SameEntries(entries, entries');
    SameBuilds(entries, entries');
    SameBuilds(entries', entries);
    RegisteredSubset(Builds(entries), Builds(entries'));
    RegisteredSubset(Builds(entries'), Builds(entries));
    var r, r' := LoadProfiles(entries, map[]).value, LoadProfiles(entries', map[]).value;
    assert r.Keys == r'.Keys;
    assert r == r';
  }

  lemma SameBuilds(entries: seq<Entry>, entries': seq<Entry>)
    requires forall e | e in entries :: e in entries'
    ensures forall p | p in Builds(entries) :: p in Builds(entries')
  {
    forall p | p in Builds(entries) ensures p in Builds(entries') {
      var i :| 0 <= i < |entries| && Builds(entries)[i] == p;
      assert entries[i] in entries';
      var j :| 0 <= j < |entries'| && entries'[j] == entries[i];
      BuildsAt(entries, i);
      BuildsAt(entries', j);
    }
  }

  lemma RegisteredSubset(ps: seq<P.Profile>, ps': seq<P.Profile>)
    requires Register(ps, map[]).Some? && Register(ps', map[]).Some?
    requires forall p | p in ps :: p in ps'
    ensures var r, r' := Register(ps, map[]).value, Register(ps', map[]).value;
            forall k | k in r :: k in r' && r'[k] == r[k]
  {
    Registered(ps, map[]);
    Registered(ps', map[]);
    var r, r' := Register(ps, map[]).value, Register(ps', map[]).value;
    forall k | k in r ensures k in r' && r'[k] == r[k] {
      var i :| 0 <= i < |ps| && ps[i].name == k;
      assert ps[i] in ps';
      var j :| 0 <= j < |ps'| && ps'[j] == ps[i];
    }
  }

  // ---------------------------------------------------------------- streams: specification

  function BuildStream(e: StreamEntry): R.Stream {
    R.Stream(e.pipeline, e.udpPort, e.tcpPort, e.rtspUrl, e.testStream, e.testStreamSrc, "")
  }

  function LoadStreams(entries: seq<StreamEntry>, m: map<string, R.Stream>): Option<map<string, R.Stream>> {
    if entries == [] then Some(m)
    else
      var s := BuildStream(entries[0]);
      if !R.IsValid(s) || s.rtspUrl in m then None
      else LoadStreams(entries[1..], m[s.rtspUrl := s])
  }

  ghost predicate StreamEntryValid(e: StreamEntry) {
    e.pipeline != "" && e.udpPort != "" && e.tcpPort != "" && e.rtspUrl != ""
  }

  /** The stream carries every value of the entry, and no error text. */
  ghost predicate StreamOf(s: R.Stream, e: StreamEntry) {
    && s.pipeline == e.pipeline && s.udpPort == e.udpPort && s.tcpPort == e.tcpPort && s.rtspUrl == e.rtspUrl
    && s.testStream == e.testStream && s.testStreamSrc == e.testStreamSrc && s.strErr == ""
  }

  /** Loading the streams completes exactly when none has an unset parameter and the URLs are
      pairwise distinct and new; a stream is then found under its URL and no other. */
  lemma {:induction false} StreamsCompleteIff(entries: seq<StreamEntry>, m: map<string, R.Stream>)
    ensures LoadStreams(entries, m).Some? <==>
            && (forall i, j | 0 <= i < j < |entries| :: entries[i].rtspUrl != entries[j].rtspUrl)
            && (forall i | 0 <= i < |entries| :: StreamEntryValid(entries[i]) && entries[i].rtspUrl !in m)
    ensures LoadStreams(entries, m).Some? ==>
              var r := LoadStreams(entries, m).value;
              && (forall k | k in m :: k in r && r[k] == m[k])
              && (forall i | 0 <= i < |entries| ::
                    entries[i].rtspUrl in r && StreamOf(r[entries[i].rtspUrl], entries[i]))
              && |r| == |m| + |entries|
    decreases |entries|
  {
    if entries != [] {
      var e := entries[0];
      var m' := m[e.rtspUrl := BuildStream(e)];
      StreamsCompleteIff(entries[1..], m');
      assert forall i | 1 <= i < |entries| :: entries[i] == entries[1..][i - 1];
    }
  }

  // ---------------------------------------------------------------- implementation

  /** One entry set on a cleared builder. */
  method FillProfile(b: P.StreamProfile, e: Entry)
    requires b.Value() == P.FRESH
    modifies b
    ensures b.Value() == Build(e)
  {
    var _ := b.DoSetName(Some(e.name));
    var _ := b.DoSetWidth(e.width, e.unsetWidth);
    var _ := b.DoSetHeight(e.height, e.unsetHeight);
    var _ := b.DoSetUrl(Some(e.url));
    var _ := b.DoSetSnapurl(Some(e.snapUrl));
    var _ := b.DoSetType(e.kind);
  }

  /** One round of the profile loop: p is what a fresh builder gives for the entry. */
  method AddEntry(b: P.StreamProfile, e: Entry, ghost p: P.Profile, ctx: ServiceContext) returns (ok: bool)
    requires b.Value() == P.FRESH && p == Build(e) && ctx.Valid()
    modifies b, ctx`profiles, ctx`strErr
    ensures ctx.Valid()
    ensures ok <==> P.IsValid(p) && p.name !in old(ctx.profiles)
    ensures ok ==> ctx.profiles == old(ctx.profiles)[p.name := p] && b.Value() == P.FRESH
  {
    FillProfile(b, e);
    ok := ctx.AddProfile(b.Value());
    if ok {
      BuildValid(e);
      b.DoClear();
    }
  }

  /** The profile loop: one reused, cleared builder gives the registry of fresh builders. */
  method AddProfiles(entries: seq<Entry>, ctx: ServiceContext) returns (ok: bool)
    requires ctx.Valid()
    modifies ctx`profiles, ctx`strErr
    ensures ctx.Valid()
    ensures ok <==> LoadProfiles(entries, old(ctx.profiles)).Some?
    ensures ok ==> ctx.profiles == LoadProfiles(entries, old(ctx.profiles)).value
  {
    var profile := new P.StreamProfile();
    ghost var ps := Builds(entries);
    for i := 0 to |entries|
      invariant ctx.Valid() && fresh(profile) && profile.Value() == P.FRESH
      invariant Register(ps[i..], ctx.profiles) == Register(ps, old(ctx.profiles))
    {
      assert ps[i..][0] == ps[i] && ps[i..][1..] == ps[i + 1..];
      BuildsAt(entries, i);
      ok := AddEntry(profile, entries[i], ps[i], ctx);
      if !ok {
        return;
      }
    }
    return true;
  }

  /** One entry set on a cleared builder; only the test source may be left over. */
  method FillStream(b: R.RTSPStreamConfig, e: StreamEntry)
    requires b.Value() == R.FRESH.(testStreamSrc := b.testStreamSrc)
    modifies b
    ensures StreamOf(b.Value(), e) && b.Value() == BuildStream(e)
  {
    var _ := b.SetPipeline(Some(e.pipeline));
    var _ := b.SetUdpPort(Some(e.udpPort));
    var _ := b.SetTcpPort(Some(e.tcpPort));
    var _ := b.SetRtspUrl(Some(e.rtspUrl));
    b.SetTestStream(e.testStream);
    var _ := b.SetTestStreamSrc(Some(e.testStreamSrc));
  }

  /** The stream loop, likewise with one reused builder. */
  method AddStreams(entries: seq<StreamEntry>, streams: R.RTSPStream) returns (ok: bool)
    modifies streams
    ensures ok <==> LoadStreams(entries, old(streams.streams)).Some?
    ensures ok ==> streams.streams == LoadStreams(entries, old(streams.streams)).value
  {
    var config := new R.RTSPStreamConfig();
    for i := 0 to |entries|
      invariant fresh(config) && config.Value() == R.FRESH.(testStreamSrc := config.testStreamSrc)
      invariant LoadStreams(entries[i..], streams.streams) == LoadStreams(entries, old(streams.streams))
    {
      FillStream(config, entries[i]);
      assert entries[i..][0] == entries[i] && entries[i..][1..] == entries[i + 1..];
      var added := streams.AddStream(config.Value());
      if !added {
        return false;
      }
      config.Clear();
    }
    return true;
  }

  /** The daemon settings the configuration asks for. An empty log file name is refused by its
      setter, which leaves the default, also empty. */
  function ConfiguredInfo(c: Configuration): Info {
    DEFAULT_INFO.(pidFile := c.pidFile, logLevel := c.logLevel, logFile := c.logFile,
                  logFileSizeMb := c.logFileSizeMb, logFileCount := c.logFileCount, logAsync := c.logAsync)
  }

  method SaveDaemonInfo(c: Configuration, daemon: Daemon) returns (ok: bool)
    modifies daemon
    ensures ok <==> c.pidFile != "" && c.logLevel != ""
    ensures ok ==>
              var i := daemon.config;
              && i.pidFile == c.pidFile && i.logLevel == c.logLevel && i.logFile == c.logFile
              && i.logFileSizeMb == c.logFileSizeMb && i.logFileCount == c.logFileCount && i.logAsync == c.logAsync
              && !i.daemonized && !i.noChdir && !i.noFork && i.noCloseStdio
    ensures daemon.config == if ok then ConfiguredInfo(c) else old(daemon.config)
  {
    var info := new DaemonInfo();
    var _ := info.SetPidFile(c.pidFile);
    var _ := info.SetLogLevel(c.logLevel);
    var _ := info.SetLogFile(c.logFile);
    info.SetLogRotation(c.logFileSizeMb, c.logFileCount, c.logAsync);
    ok := daemon.SaveConfig(info);
  }

  /** What makes the configuration acceptable. */
  ghost predicate Acceptable(c: Configuration, env: Env, profiles: Registry, streams: map<string, R.Stream>) {
    && c.pidFile != "" && c.logLevel != ""
    && |c.interfaces| < 16 && env.socketOk && env.netIf.Some?
    && ReadUnsigned(c.tzFormat, env.unsetTz) < 6
    && LoadProfiles(c.profiles, profiles).Some?
    && LoadStreams(c.rtspStreams, streams).Some?
  }

  method AddScopes(scopes: seq<string>, ctx: ServiceContext)
    requires ctx.Valid()
    modifies ctx`scopes
    ensures ctx.Valid() && ctx.scopes == old(ctx.scopes) + scopes
  {
    for i := 0 to |scopes|
      invariant ctx.Valid() && ctx.scopes == old(ctx.scopes) + scopes[..i]
    {
      ctx.scopes := ctx.scopes + [scopes[i]];
    }
    assert scopes[..|scopes|] == scopes;
  }

  /** A new Eth_Dev_Param is opened on the configured interface and kept. */
  method AddInterface(name: string, env: Env, k: Kernel, ctx: ServiceContext) returns (ok: bool)
    requires ctx.Valid()
    modifies ctx`ethIfs, k`fds
    ensures ctx.Valid()
    ensures ok <==> |name| < 16 && env.socketOk && env.netIf.Some?
    ensures ok ==> ctx.ethIfs == old(ctx.ethIfs) + [env.netIf.value.(name := name)]
    ensures k.fds == if ok then old(k.fds)[LowestFree(old(k.fds)) := Socket] else old(k.fds)
  {
    var dev := new EthDevParam();
    var ret := dev.Open(k, Some(name), env.socketOk, env.netIf.Some?);
    if ret != 0 {
      return false;
    }
    ctx.ethIfs := ctx.ethIfs + [env.netIf.value.(name := dev.ifrName)];
    return true;
  }

  /** The settings, the scopes, the interface and the time-zone format. */
  method FillSettings(c: Configuration, env: Env, k: Kernel, ctx: ServiceContext) returns (exit: Option<Exit>)
    requires ctx.Valid()
    modifies ctx, k`fds
    ensures ctx.Valid() && ctx.profiles == old(ctx.profiles)
    ensures exit == if !(|c.interfaces| < 16 && env.socketOk && env.netIf.Some?) then Some(OpenInterface)
                    else if ReadUnsigned(c.tzFormat, env.unsetTz) >= 6 then Some(TzFormat)
                    else None
    ensures exit == None ==>
              && ctx.settings == c.settings
              && ctx.scopes == old(ctx.scopes) + c.scopes
              && ctx.ethIfs == old(ctx.ethIfs) + [ConfiguredIf(c, env)]
              && k.fds == old(k.fds)[LowestFree(old(k.fds)) := Socket]
              && ctx.tzFormat == ReadUnsigned(c.tzFormat, env.unsetTz)
  {
    ctx.settings := c.settings;
    AddScopes(c.scopes, ctx);
    var ok := AddInterface(c.interfaces, env, k, ctx);
    if !ok {
      return Some(OpenInterface);
    }
    ok := ctx.SetTzFormat(c.tzFormat, env.unsetTz);
    if !ok {
      return Some(TzFormat);
    }
    return None;
  }

  /** The part of processing_cfg that fills the service context. */
  method FillContext(c: Configuration, env: Env, k: Kernel, ctx: ServiceContext) returns (exit: Option<Exit>)
    requires ctx.Valid()
    modifies ctx, k`fds
    ensures ctx.Valid()
    ensures exit == if !(|c.interfaces| < 16 && env.socketOk && env.netIf.Some?) then Some(OpenInterface)
                    else if ReadUnsigned(c.tzFormat, env.unsetTz) >= 6 then Some(TzFormat)
                    else if LoadProfiles(c.profiles, old(ctx.profiles)).None? then Some(Exit.AddProfile)
                    else None
    ensures exit == None ==>
              && ctx.settings == c.settings
              && ctx.scopes == old(ctx.scopes) + c.scopes
              && ctx.ethIfs == old(ctx.ethIfs) + [ConfiguredIf(c, env)]
              && k.fds == old(k.fds)[LowestFree(old(k.fds)) := Socket]
              && ctx.tzFormat == ReadUnsigned(c.tzFormat, env.unsetTz)
              && ctx.profiles == LoadProfiles(c.profiles, old(ctx.profiles)).value
  {
    exit := FillSettings(c, env, k, ctx);
    if exit.Some? {
      return;
    }
    var ok := AddProfiles(c.profiles, ctx);
    if !ok {
      return Some(Exit.AddProfile);
    }
    return None;
  }

  method ProcessingCfg(c: Configuration, env: Env, k: Kernel, ctx: ServiceContext, streams: R.RTSPStream,
                       daemon: Daemon)
    returns (exit: Option<Exit>)
    requires ctx.Valid()
    modifies ctx, streams, daemon, k`fds
    ensures ctx.Valid()
    ensures exit == None <==> Acceptable(c, env, old(ctx.profiles), old(streams.streams))
    ensures exit == if c.pidFile == "" || c.logLevel == "" then Some(Exit.SaveDaemonInfo)
                    else if !(|c.interfaces| < 16 && env.socketOk && env.netIf.Some?) then Some(OpenInterface)
                    else if ReadUnsigned(c.tzFormat, env.unsetTz) >= 6 then Some(TzFormat)
                    else if LoadProfiles(c.profiles, old(ctx.profiles)).None? then Some(Exit.AddProfile)
                    else if LoadStreams(c.rtspStreams, old(streams.streams)).None? then Some(Exit.AddStream)
                    else None
    ensures exit == None ==>
              && daemon.config == ConfiguredInfo(c)
              && daemon.config.pidFile == c.pidFile && daemon.config.logLevel == c.logLevel
              && ctx.settings == c.settings
              && ctx.scopes == old(ctx.scopes) + c.scopes
              && ctx.ethIfs == old(ctx.ethIfs) + [ConfiguredIf(c, env)]
              && k.fds == old(k.fds)[LowestFree(old(k.fds)) := Socket]
              && ctx.tzFormat == ReadUnsigned(c.tzFormat, env.unsetTz)
              && ctx.profiles == LoadProfiles(c.profiles, old(ctx.profiles)).value
              && streams.streams == LoadStreams(c.rtspStreams, old(streams.streams)).value
  {
    var ok := SaveDaemonInfo(c, daemon);
    if !ok {
      return Some(Exit.SaveDaemonInfo);
    }
    exit := FillContext(c, env, k, ctx);
    if exit.Some? {
      return;
    }
    ok := AddStreams(c.rtspStreams, streams);
    if !ok {
      return Some(Exit.AddStream);
    }
    return None;
  }
}
