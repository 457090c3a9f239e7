/** Start-up and service taken together, as main() runs them: an accepted configuration is what
    clients see. */
module Service {
  import opened Text
  import opened Bits
  import opened Ipv4
  import opened ServerAddress
  import opened Scan
  import opened OsKernel
  import opened Context
  import opened Config
  import opened Media
  import D = DaemonProcess
  import P = StreamProfiles
  import R = RtspStreams
  import Template

  /** From empty objects, an accepted configuration with scopes and profiles passes the check
      the service makes before it runs. */
  method StartUp(c: Configuration, env: Env, endian: Endian, k: Kernel)
    returns (ctx: ServiceContext, streams: R.RTSPStream, exit: Option<Exit>, thrown: Option<string>)
    modifies k`fds
    ensures fresh(ctx) && fresh(streams) && ctx.Valid() && ctx.endian == endian
    ensures exit == None <==> Acceptable(c, env, map[], map[])
    ensures exit == None ==> (thrown == None <==> c.scopes != [] && c.profiles != [])
    ensures exit == None ==> ctx.ethIfs == [ConfiguredIf(c, env)]
    ensures exit == None ==> ctx.profiles == LoadProfiles(c.profiles, map[]).value
    ensures exit == None ==> streams.streams == LoadStreams(c.rtspStreams, map[]).value
  {
    ctx := new ServiceContext(endian);
    streams := new R.RTSPStream();
    var daemon := new D.Daemon();
    exit := ProcessingCfg(c, env, k, ctx, streams, daemon);
    thrown := None;
    if exit == None {
      LoadedRegistry(c.profiles, map[]);
      thrown := CheckServiceCtx(ctx);
    }
  }

  /** The encoder has the dimensions the entry's texts name, in range, and its encoding. */
  ghost predicate ServedEncoder(v: VideoEncoderConfiguration, e: Entry) {
    && 100 <= v.resolution.width < 10000 && v.resolution.width == ReadInt(e.width, e.unsetWidth)
    && 100 <= v.resolution.height < 10000 && v.resolution.height == ReadInt(e.height, e.unsetHeight)
    && match v.encoding
       case 0 => e.kind == "JPEG"
       case 1 => e.kind == "MPEG4"
       case 2 => e.kind == "H264"
       case _ => false
  }

  /** Every configured profile is served under its name. As start-up opens exactly one
      interface, the address in its stream URI is that interface's, whoever asks; the one
      interface reported is the configured one. */
  method ServeProfile(c: Configuration, env: Env, endian: Endian, k: Kernel, i: nat, soapIp: uint32)
    returns (exit: Option<Exit>, ret: Status, profile: Option<MediaProfile>, uri: Option<string>, infos: seq<IfInfo>)
    requires i < |c.profiles|
    modifies k`fds
    ensures exit == None ==>
              && ret == SoapOk && env.netIf.Some?
              && (exists ip :: Spells(endian, env.netIf.value.addr, ip)
                               && uri == Some(Template.Substitute(c.profiles[i].url, ip)))
              && profile.Some? && profile.value.token == c.profiles[i].name
              && ServedEncoder(profile.value.encoder, c.profiles[i])
              && |infos| == 1 && Reports(endian, ConfiguredIf(c, env), infos[0])
  {
    var ctx, streams, e, thrown := StartUp(c, env, endian, k);
    exit, ret, profile, uri, infos := e, SoapFault, None, None, [];
    if exit == None {
      LoadCompletesIff(c.profiles, map[]);
      LoadedRegistry(c.profiles, map[]);
      BuildValid(c.profiles[i]);
      var service := new MediaService(ctx);
      var _, p := service.GetProfile(c.profiles[i].name);
      profile := p;
      ret, uri := service.GetStreamUri(c.profiles[i].name, soapIp);
      infos := GetNetworkInterfaces(endian, ctx.ethIfs);
    }
  }

  /** Every configured stream is found under its URL, as configured. */
  method ServeStream(c: Configuration, env: Env, endian: Endian, k: Kernel, j: nat)
    returns (exit: Option<Exit>, stream: Option<R.Stream>)
    requires j < |c.rtspStreams|
    modifies k`fds
    ensures exit == None ==> stream.Some? && StreamOf(stream.value, c.rtspStreams[j])
  {
    var ctx, streams, e, thrown := StartUp(c, env, endian, k);
    exit, stream := e, None;
    if exit == None {
      StreamsCompleteIff(c.rtspStreams, map[]);
      stream := streams.GetStream(c.rtspStreams[j].rtspUrl);
    }
  }
}
