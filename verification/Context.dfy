/** ServiceContext: settings, interfaces and the profile registry every handler reads
    (ServiceContext.cpp, ServiceContext.h). */
module Context {
  import opened Text
  import opened Scan
  import opened Bits
  import opened Ipv4
  import opened ServerAddress
  import opened StreamProfiles
  import TZ = TimeZone
  import Template

  type Registry = map<string, Profile>

  /** The registry is keyed by the stored names and holds only valid profiles. */
  ghost predicate Consistent(m: Registry) {
    forall k | k in m :: m[k].name == k && IsValid(m[k])
  }

  datatype Settings = Settings(port: int, user: string, password: string, manufacturer: string, model: string,
                               firmwareVersion: string, serialNumber: string, hardwareId: string)

  const DEFAULT_SETTINGS :=
    Settings(1000, "admin", "admin", "Rinicom", "Watchman", "0.0.1", "000001", "000002")

  class ServiceContext {
    const endian: Endian
    var settings: Settings
    var scopes: seq<string>
    var ethIfs: seq<NetIf>
    var profiles: Registry
    var ptzEnable: bool
    var tzFormat: nat
    var strErr: string

    ghost predicate Valid()
      reads this
    {
      tzFormat < TZ.TZ_CNT_FORMATS && Consistent(profiles)
    }

    constructor (endian: Endian)
      ensures Valid() && this.endian == endian && settings == DEFAULT_SETTINGS
      ensures scopes == [] && ethIfs == [] && profiles == map[] && !ptzEnable
      ensures tzFormat == 0 && strErr == ""
      ensures settings.port == 1000 && settings.user == settings.password == "admin"
    {
      this.endian := endian;
      settings, scopes, ethIfs := DEFAULT_SETTINGS, [], [];
      profiles, ptzEnable, tzFormat, strErr := map[], false, TZ.TZ_UTC_OFFSET, "";
    }

    /** unset is what the local variable holds before it is read into. */
    method SetTzFormat(newVal: string, unset: nat) returns (ok: bool)
      requires Valid()
      modifies this`tzFormat, this`strErr
      ensures Valid()
      ensures ok <==> ReadUnsigned(newVal, unset) < TZ.TZ_CNT_FORMATS
      ensures tzFormat == if ok then ReadUnsigned(newVal, unset) else old(tzFormat)
      ensures forall n: nat | newVal == Dec(n) :: (ok <==> n < 6) && (ok ==> tzFormat == n)
      ensures strErr == if ok then old(strErr) else "tz_format is not supported"
    {
      var tmp := ReadUnsigned(newVal, unset);
      forall n: nat | newVal == Dec(n) ensures tmp == if n <= UINT_MAX then n else UINT_MAX {
        ReadUnsignedRoundTrip(n, unset);
      }
      if tmp >= TZ.TZ_CNT_FORMATS {
        strErr := "tz_format is not supported";
        return false;
      }
      tzFormat := tmp;
      return true;
    }

    /** get_time_zone; offset is tm_gmtoff, and the environment variables are TZ and TZ_ONVIF. */
    method GetTimeZone(offset: int, tz: Option<string>, tzOnvif: Option<string>) returns (text: string)
      requires Valid()
      ensures tzFormat == 0 ==> TZ.Says("", text, offset)
      ensures tzFormat == 1 ==> TZ.Says("", text, -offset)
      ensures tzFormat == 2 ==> TZ.Says("UTC", text, offset)
      ensures tzFormat == 3 ==> TZ.Says("GMT", text, -offset)
      ensures tzFormat == 4 ==> text == if tz.Some? then tz.value else "UTC+00"
      ensures tzFormat == 5 ==> text == if tzOnvif.Some? then tzOnvif.value else "UTC+00"
    {
      text := TZ.TimeZoneText(tzFormat, offset, tz, tzOnvif);
      match tzFormat {
        case 0 => TZ.UtcSays("", text, offset);
        case 1 => TZ.UtcSays("", text, -offset);
        case 2 => TZ.UtcSays("UTC", text, offset);
        case 3 => TZ.UtcSays("GMT", text, -offset);
        case _ =>
      }
    }

    method AddProfile(p: Profile) returns (ok: bool)
      requires Valid()
      modifies this`profiles, this`strErr
      ensures Valid()
      ensures ok <==> p.name != "" && p.url != "" && p.width != -1 && p.height != -1 && p.encoding != -1
                      && p.name !in old(profiles)
      ensures profiles == if ok then old(profiles)[p.name := p] else old(profiles)
      ensures strErr == if ok then old(strErr)
                        else if !IsValid(p) then "profile has unset parameters"
                        else "profile: " + p.name + " already exist"
    {
      if !IsValid(p) {
        strErr := "profile has unset parameters";
        return false;
      }
      if p.name in profiles {
        strErr := "profile: " + p.name + " already exist";
        return false;
      }
      profiles := profiles[p.name := p];
      return true;
    }

    function XAddr(soapIp: uint32): string
      reads this
    {
      "http://" + ServerIp(endian, ethIfs, Ntohl(endian, soapIp)) + ":" + IntText(settings.port)
    }

    /** getXAddr: soap->ip is in host order. */
    method GetXAddr(soapIp: uint32) returns (x: string)
      ensures exists ip :: ServedAs(endian, ethIfs, soapIp, ip)
                           && x == "http://" + ip + ":" + IntText(settings.port)
      ensures x == XAddr(soapIp)
    {
      ServerIpServesHost(endian, ethIfs, soapIp);
      var ip := GetServerIpFromClientIp(endian, ethIfs, Ntohl(endian, soapIp));
      x := "http://" + ip + ":" + IntText(settings.port);
    }

    /** The URI with the server's address in the place of its first "%s". */
    function Uri(url: string, clientIp: uint32): string
      reads this
    {
      Template.Substitute(url, ServerIp(endian, ethIfs, clientIp))
    }

    /** get_stream_uri: the URI differs from the profile's only in its first "%s", which
        becomes the address of the server; no "%s" is created. */
    method GetStreamUri(profileUrl: string, clientIp: uint32) returns (uri: string)
      ensures uri == Uri(profileUrl, clientIp)
      ensures ServedUri(endian, ethIfs, Ntohl(endian, clientIp), profileUrl, uri)
      ensures Template.Occurrences(profileUrl) == 0 ==> uri == profileUrl
      ensures Template.Occurrences(profileUrl) > 0 ==>
                Template.Occurrences(uri) == Template.Occurrences(profileUrl) - 1
    {
      uri := profileUrl;
      var it := Template.Find(uri);
      if it != |uri| {
        var ip := GetServerIpFromClientIp(endian, ethIfs, clientIp);
        uri := uri[..it] + ip + uri[it + 2..];
      }
      assert uri == Uri(profileUrl, clientIp);
      UriOccurrences(profileUrl, endian, ethIfs, clientIp);
      UriServed(profileUrl, endian, ethIfs, clientIp);
    }

    /** get_snapshot_uri, which does the same. */
    method GetSnapshotUri(profileUrl: string, clientIp: uint32) returns (uri: string)
      ensures uri == Uri(profileUrl, clientIp)
      ensures ServedUri(endian, ethIfs, Ntohl(endian, clientIp), profileUrl, uri)
      ensures Template.Occurrences(profileUrl) == 0 ==> uri == profileUrl
      ensures Template.Occurrences(profileUrl) > 0 ==>
                Template.Occurrences(uri) == Template.Occurrences(profileUrl) - 1
    {
      uri := profileUrl;
      var it := Template.Find(uri);
      if it != |uri| {
        var ip := GetServerIpFromClientIp(endian, ethIfs, clientIp);
        uri := uri[..it] + ip + uri[it + 2..];
      }
      assert uri == Uri(profileUrl, clientIp);
      UriOccurrences(profileUrl, endian, ethIfs, clientIp);
      UriServed(profileUrl, endian, ethIfs, clientIp);
    }
  }

  lemma UriOccurrences(url: string, e: Endian, ifs: seq<NetIf>, clientIp: uint32)
    ensures var uri := Template.Substitute(url, ServerIp(e, ifs, clientIp));
            if Template.Occurrences(url) == 0 then uri == url
            else Template.Occurrences(uri) == Template.Occurrences(url) - 1
  {
    ServerIpShape(e, ifs, clientIp);
    Template.AddressSubstitution(url, ServerIp(e, ifs, clientIp));
  }

  /** The URI is the url with its first "%s" replaced by what the client, given in host order,
      is told. */
  ghost predicate ServedUri(e: Endian, ifs: seq<NetIf>, client: uint32, url: string, uri: string) {
    exists ip :: ServedAs(e, ifs, client, ip) && uri == Template.Substitute(url, ip)
  }

  lemma UriServed(url: string, e: Endian, ifs: seq<NetIf>, clientIp: uint32)
    ensures ServedUri(e, ifs, Ntohl(e, clientIp), url, Template.Substitute(url, ServerIp(e, ifs, clientIp)))
  {
    ServerIpServes(e, ifs, clientIp);
  }

  /** GSoapInstance::checkServiceCtx: the message of the exception thrown, if any. */
  method CheckServiceCtx(ctx: ServiceContext) returns (thrown: Option<string>)
    ensures thrown == None <==> ctx.ethIfs != [] && ctx.scopes != [] && ctx.profiles != map[]
    ensures thrown.Some? ==>
              thrown.value ==
              if ctx.ethIfs == [] then "Error: not set no one ehternet interface more details see opt --ifs\n"
              else if ctx.scopes == [] then "Error: not set scopes more details see opt --scope\n"
              else "Error: not set no one profile more details see --help\n"
  {
    if ctx.ethIfs == [] {
      return Some("Error: not set no one ehternet interface more details see opt --ifs\n");
    }
    if ctx.scopes == [] {
      return Some("Error: not set scopes more details see opt --scope\n");
    }
    if ctx.profiles == map[] {
      return Some("Error: not set no one profile more details see --help\n");
    }
    return None;
  }
}
