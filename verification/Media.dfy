/** The media service handlers that answer from the profile registry (ServiceMedia.cpp and the
    StreamProfile getters of ServiceContext.cpp). Responses are plain records. */
module Media {
  import opened Text
  import opened Bits
  import opened Ipv4
  import opened KeyOrder
  import opened Context
  import opened StreamProfiles

  datatype Status = SoapOk | SoapFault

  datatype Rectangle = Rectangle(x: int, y: int, width: int, height: int)
  datatype Resolution = Resolution(width: int, height: int)
  datatype VideoSourceConfiguration = VideoSourceConfiguration(token: string, sourceToken: string, bounds: Rectangle)
  datatype VideoEncoderConfiguration =
    VideoEncoderConfiguration(name: string, token: string, resolution: Resolution, encoding: int)
  datatype MediaProfile = MediaProfile(name: string, token: string, source: VideoSourceConfiguration,
                                       encoder: VideoEncoderConfiguration, hasPtz: bool)
  datatype VideoSource = VideoSource(token: string, resolution: Resolution)
  datatype MediaCapabilities = MediaCapabilities(snapshotUri: Option<bool>, maxProfiles: nat, rtpMulticast: bool)

  function VideoSrcCfg(p: Profile): VideoSourceConfiguration {
    VideoSourceConfiguration(p.name, p.name, Rectangle(0, 0, p.width, p.height))
  }

  function VideoEncCfg(p: Profile): VideoEncoderConfiguration {
    VideoEncoderConfiguration(p.name, p.name, Resolution(p.width, p.height), p.encoding)
  }

  /** StreamProfile::get_profile */
  function GetProfileRecord(p: Profile, ptz: bool): MediaProfile {
    MediaProfile(p.name, p.name, VideoSrcCfg(p), VideoEncCfg(p), ptz)
  }

  /** StreamProfile::get_video_src */
  function GetVideoSrc(p: Profile): VideoSource {
    VideoSource(p.name, Resolution(p.width, p.height))
  }

  /** ServiceContext::getMediaServiceCapabilities: a snapshot URI is advertised exactly when
      some profile has one. */
  method GetMediaServiceCapabilities(ctx: ServiceContext) returns (c: MediaCapabilities)
    ensures c.snapshotUri == None || c.snapshotUri == Some(true)
    ensures c.snapshotUri.Some? <==> exists k :: k in ctx.profiles && ctx.profiles[k].snapurl != ""
    ensures c.maxProfiles == 1 && !c.rtpMulticast
  {
    var snapshotUri: Option<bool> := None;
    var keys := SortedKeys(ctx.profiles.Keys);
    for i := 0 to |keys|
      invariant snapshotUri == None || snapshotUri == Some(true)
      invariant snapshotUri.Some? <==> exists j :: 0 <= j < i && ctx.profiles[keys[j]].snapurl != ""
    {
      if ctx.profiles[keys[i]].snapurl != "" && snapshotUri == None {
        snapshotUri := Some(true);
      }
    }
    forall k | k in ctx.profiles && ctx.profiles[k].snapurl != "" ensures snapshotUri.Some? {
      assert k in keys;
    }
    c := MediaCapabilities(snapshotUri, 1, false);
  }

  /** One record per stored profile, in key order. */
  ghost predicate ListsProfiles(m: Registry, ptz: bool, all: seq<MediaProfile>) {
    var keys := SortedKeys(m.Keys);
    && |all| == |keys| == |m|
    && forall i | 0 <= i < |keys| :: all[i] == GetProfileRecord(m[keys[i]], ptz)
  }

  ghost predicate ListsSources(m: Registry, sources: seq<VideoSource>) {
    var keys := SortedKeys(m.Keys);
    && |sources| == |keys| == |m|
    && forall i | 0 <= i < |keys| :: sources[i] == GetVideoSrc(m[keys[i]])
  }

  /** What a client must see of the stored profile p: its name throughout, its dimensions as the
      bounds of the source and the resolution of the encoder, and its encoding. */
  ghost predicate Describes(m: MediaProfile, p: Profile) {
    && m.name == m.token == p.name
    && m.source.token == m.source.sourceToken == p.name
    && m.source.bounds.x == m.source.bounds.y == 0
    && m.source.bounds.width == m.encoder.resolution.width == p.width
    && m.source.bounds.height == m.encoder.resolution.height == p.height
    && m.encoder.name == m.encoder.token == p.name
    && m.encoder.encoding == p.encoding
  }

  ghost predicate Lists(all: seq<MediaProfile>, token: string) {
    exists j :: 0 <= j < |all| && all[j].token == token
  }

  class MediaService {
    const ctx: ServiceContext

    constructor (ctx: ServiceContext)
      ensures this.ctx == ctx
    {
      this.ctx := ctx;
    }

    /** GetProfiles lists every stored profile once, in key order. */
    method GetProfiles() returns (ret: Status, profiles: seq<MediaProfile>)
      requires ctx.Valid()
      ensures ret == SoapOk && ListsProfiles(ctx.profiles, ctx.ptzEnable, profiles)
      ensures |profiles| == |ctx.profiles|
      ensures forall i | 0 <= i < |profiles| ::
                var p := profiles[i];
                && p.token in ctx.profiles && Describes(p, ctx.profiles[p.token]) && p.hasPtz == ctx.ptzEnable
      ensures forall i, j | 0 <= i < j < |profiles| :: Precedes(profiles[i].token, profiles[j].token)
    {
      var keys := SortedKeys(ctx.profiles.Keys);
      KeysAreStored(ctx.profiles);
      profiles := [];
      for i := 0 to |keys|
        invariant |profiles| == i
        invariant forall j | 0 <= j < i :: profiles[j] == GetProfileRecord(ctx.profiles[keys[j]], ctx.ptzEnable)
      {
        profiles := profiles + [GetProfileRecord(ctx.profiles[keys[i]], ctx.ptzEnable)];
      }
      ProfileListing(ctx.profiles, ctx.ptzEnable, profiles);
      return SoapOk, profiles;
    }

    /** GetVideoSources does the same for the sources. */
    method GetVideoSources() returns (ret: Status, sources: seq<VideoSource>)
      requires ctx.Valid()
      ensures ret == SoapOk && ListsSources(ctx.profiles, sources)
      ensures |sources| == |ctx.profiles|
      ensures forall i | 0 <= i < |sources| ::
                var s := sources[i];
                && s.token in ctx.profiles
                && s.resolution.width == ctx.profiles[s.token].width
                && s.resolution.height == ctx.profiles[s.token].height
      ensures forall i, j | 0 <= i < j < |sources| :: Precedes(sources[i].token, sources[j].token)
    {
      var keys := SortedKeys(ctx.profiles.Keys);
      KeysAreStored(ctx.profiles);
      sources := [];
      for i := 0 to |keys|
        invariant |sources| == i
        invariant forall j | 0 <= j < i :: sources[j] == GetVideoSrc(ctx.profiles[keys[j]])
      {
        sources := sources + [GetVideoSrc(ctx.profiles[keys[i]])];
      }
      SourceListing(ctx.profiles, sources);
      return SoapOk, sources;
    }

    method GetProfile(token: string) returns (ret: Status, profile: Option<MediaProfile>)
      ensures ret == if token in ctx.profiles then SoapOk else SoapFault
      ensures ret == SoapOk ==>
                profile.Some? && Describes(profile.value, ctx.profiles[token]) && profile.value.hasPtz == ctx.ptzEnable
      ensures profile == if ret == SoapOk then Some(GetProfileRecord(ctx.profiles[token], ctx.ptzEnable)) else None
    {
      ret, profile := SoapFault, None;
      if token in ctx.profiles {
        profile := Some(GetProfileRecord(ctx.profiles[token], ctx.ptzEnable));
        ret := SoapOk;
      }
    }

    method GetCompatibleVideoEncoderConfigurations(token: string)
      returns (ret: Status, configurations: seq<VideoEncoderConfiguration>)
      ensures ret == if token in ctx.profiles then SoapOk else SoapFault
      ensures |configurations| == if ret == SoapOk then 1 else 0
      ensures ret == SoapOk ==>
                var c, p := configurations[0], ctx.profiles[token];
                && c.name == c.token == p.name && c.encoding == p.encoding
                && c.resolution.width == p.width && c.resolution.height == p.height
      ensures ret == SoapOk ==> configurations == [VideoEncCfg(ctx.profiles[token])]
    {
      ret, configurations := SoapFault, [];
      if token in ctx.profiles {
        configurations := configurations + [GetProfileRecord(ctx.profiles[token], ctx.ptzEnable).encoder];
        ret := SoapOk;
      }
    }

    method GetCompatibleVideoSourceConfigurations(token: string)
      returns (ret: Status, configurations: seq<VideoSourceConfiguration>)
      ensures ret == if token in ctx.profiles then SoapOk else SoapFault
      ensures |configurations| == if ret == SoapOk then 1 else 0
      ensures ret == SoapOk ==>
                var c, p := configurations[0], ctx.profiles[token];
                && c.token == c.sourceToken == p.name && c.bounds.x == c.bounds.y == 0
                && c.bounds.width == p.width && c.bounds.height == p.height
      ensures ret == SoapOk ==> configurations == [VideoSrcCfg(ctx.profiles[token])]
    {
      ret, configurations := SoapFault, [];
      if token in ctx.profiles {
        configurations := configurations + [GetProfileRecord(ctx.profiles[token], ctx.ptzEnable).source];
        ret := SoapOk;
      }
    }

    method GetStreamUri(token: string, soapIp: uint32) returns (ret: Status, uri: Option<string>)
      ensures ret == if token in ctx.profiles then SoapOk else SoapFault
      ensures ret == SoapOk ==>
                uri.Some? && ServedUri(ctx.endian, ctx.ethIfs, soapIp, ctx.profiles[token].url, uri.value)
      ensures uri == if ret == SoapOk then Some(ctx.Uri(ctx.profiles[token].url, Ntohl(ctx.endian, soapIp))) else None
    {
      ret, uri := SoapFault, None;
      if token in ctx.profiles {
        var u := ctx.GetStreamUri(ctx.profiles[token].url, Ntohl(ctx.endian, soapIp));
        NtohlInvolution(ctx.endian, soapIp);
        uri := Some(u);
        ret := SoapOk;
      }
    }

    method GetSnapshotUri(token: string, soapIp: uint32) returns (ret: Status, uri: Option<string>)
      ensures ret == if token in ctx.profiles then SoapOk else SoapFault
      ensures ret == SoapOk ==>
                uri.Some? && ServedUri(ctx.endian, ctx.ethIfs, soapIp, ctx.profiles[token].snapurl, uri.value)
      ensures uri == if ret == SoapOk then Some(ctx.Uri(ctx.profiles[token].snapurl, Ntohl(ctx.endian, soapIp)))
                     else None
    {
      ret, uri := SoapFault, None;
      if token in ctx.profiles {
        var u := ctx.GetSnapshotUri(ctx.profiles[token].snapurl, Ntohl(ctx.endian, soapIp));
        NtohlInvolution(ctx.endian, soapIp);
        uri := Some(u);
        ret := SoapOk;
      }
    }

    /** One client asking every handler about one token. A token is accepted by each handler
        exactly when GetProfiles lists it, and what the handlers return are the parts of the
        listed profile; the video sources are listed in step with the profiles. */
    method AskAbout(token: string, soapIp: uint32)
      returns (all: seq<MediaProfile>, sources: seq<VideoSource>, profile: Option<MediaProfile>, accepted: seq<Status>)
      requires ctx.Valid()
      ensures accepted == if Lists(all, token) then [SoapOk, SoapOk, SoapOk, SoapOk, SoapOk]
                          else [SoapFault, SoapFault, SoapFault, SoapFault, SoapFault]
      ensures forall j | 0 <= j < |all| && all[j].token == token :: profile == Some(all[j])
      ensures |sources| == |all|
      ensures forall j | 0 <= j < |all| ::
                sources[j].token == all[j].token && sources[j].resolution == all[j].encoder.resolution
      ensures forall i, j | 0 <= i < j < |all| :: Precedes(all[i].token, all[j].token)
    {
      var r0, ps := GetProfiles();
      var r1, vs := GetVideoSources();
      var r2, p := GetProfile(token);
      var r3, uri := GetStreamUri(token, soapIp);
      var r4, snapshot := GetSnapshotUri(token, soapIp);
      var r5, encoders := GetCompatibleVideoEncoderConfigurations(token);
      var r6, cfgs := GetCompatibleVideoSourceConfigurations(token);
      Coherent(ctx.profiles, ctx.ptzEnable, ps, vs, token);
      return ps, vs, p, [r2, r3, r4, r5, r6];
    }
  }

  /** What the listings say about a token, in terms of the registry. */
  lemma Coherent(m: Registry, ptz: bool, all: seq<MediaProfile>, sources: seq<VideoSource>, token: string)
    requires Consistent(m) && ListsProfiles(m, ptz, all) && ListsSources(m, sources)
    ensures Lists(all, token) <==> token in m
    ensures forall j | 0 <= j < |all| && all[j].token == token :: all[j] == GetProfileRecord(m[token], ptz)
    ensures forall j | 0 <= j < |all| ::
              sources[j].token == all[j].token && sources[j].resolution == all[j].encoder.resolution
    ensures forall i, j | 0 <= i < j < |all| :: Precedes(all[i].token, all[j].token)
  {
    ListingTokens(m, ptz, all, sources);
    ProfileListing(m, ptz, all);
    var keys := SortedKeys(m.Keys);
    if token in m {
      assert token in keys;
      var i :| 0 <= i < |keys| && keys[i] == token;
      assert all[i].token == token;
    }
  }

  lemma KeysAreStored(m: Registry)
    ensures var keys := SortedKeys(m.Keys); forall i | 0 <= i < |keys| :: keys[i] in m
  {
    var keys := SortedKeys(m.Keys);
    forall i | 0 <= i < |keys| ensures keys[i] in m {
      assert keys[i] in keys;
    }
  }

  /** Entry j of the profile listing describes the profile of key j. */
  lemma ProfileListing(m: Registry, ptz: bool, all: seq<MediaProfile>)
    requires Consistent(m) && ListsProfiles(m, ptz, all)
    ensures forall i | 0 <= i < |all| ::
              var p := all[i];
              && p.token == SortedKeys(m.Keys)[i] && p.token in m && Describes(p, m[p.token]) && p.hasPtz == ptz
    ensures forall i, j | 0 <= i < j < |all| :: Precedes(all[i].token, all[j].token)
  {
    KeysAreStored(m);
    SortedKeysPrecede(m.Keys);
  }

  lemma SourceListing(m: Registry, sources: seq<VideoSource>)
    requires Consistent(m) && ListsSources(m, sources)
    ensures forall i | 0 <= i < |sources| ::
              var s := sources[i];
              && s.token == SortedKeys(m.Keys)[i] && s.token in m
              && s.resolution.width == m[s.token].width && s.resolution.height == m[s.token].height
    ensures forall i, j | 0 <= i < j < |sources| :: Precedes(sources[i].token, sources[j].token)
  {
    KeysAreStored(m);
    SortedKeysPrecede(m.Keys);
  }

  /** Entry j of both listings belongs to key j, with the stored dimensions and encoding. */
  lemma ListingTokens(m: Registry, ptz: bool, all: seq<MediaProfile>, sources: seq<VideoSource>)
    requires Consistent(m) && ListsProfiles(m, ptz, all) && ListsSources(m, sources)
    ensures |all| == |sources| == |m|
    ensures forall j | 0 <= j < |all| ::
              var k := SortedKeys(m.Keys)[j];
              && k in m && all[j].token == sources[j].token == k
              && Describes(all[j], m[k]) && all[j].hasPtz == ptz
              && all[j].encoder.resolution == sources[j].resolution
  {
    ProfileListing(m, ptz, all);
    SourceListing(m, sources);
  }
}
