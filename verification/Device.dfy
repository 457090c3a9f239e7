/** Advertising services and capabilities (ServiceDevice.cpp). */
module Device {
  import opened Text
  import opened Bits
  import opened Ipv4
  import opened ServerAddress
  import opened Context
  import opened Media

  datatype Category = All | Analytics | Device | Events | Imaging | Media | PTZ

  datatype ServiceCapabilities = DeviceCapabilities | OfMedia(media: MediaCapabilities) | PtzCapabilities

  datatype Service = Service(namespace: string, xaddr: string, major: nat, minor: nat,
                             capabilities: Option<ServiceCapabilities>)

  const DEVICE_WSDL := "http://www.onvif.org/ver10/device/wsdl"
  const MEDIA_WSDL := "http://www.onvif.org/ver10/media/wsdl"
  const PTZ_WSDL := "http://www.onvif.org/ver20/ptz/wsdl"

  datatype DeviceSection = DeviceSection(xaddr: string, supportedVersions: seq<(nat, nat)>)

  /** tt:Capabilities: the sections that are present. */
  datatype Capabilities = Capabilities(device: Option<DeviceSection>, media: Option<string>, ptz: Option<string>)

  /** The namespaces and addresses of the sections. */
  function Advertised(c: Capabilities): seq<(string, string)> {
    (if c.device.Some? then [(DEVICE_WSDL, c.device.value.xaddr)] else []) +
    (if c.media.Some? then [(MEDIA_WSDL, c.media.value)] else []) +
    (if c.ptz.Some? then [(PTZ_WSDL, c.ptz.value)] else [])
  }

  function Listed(services: seq<Service>): seq<(string, string)> {
    seq(|services|, i requires 0 <= i < |services| => (services[i].namespace, services[i].xaddr))
  }

  function SetOf(cs: seq<Category>): set<Category> {
    set c | c in cs
  }

  /** The categories a request stands for: an empty request means All. */
  function Effective(cs: seq<Category>): set<Category> {
    if cs == [] then {All} else SetOf(cs)
  }

  /** The answer as a function of the set of categories. */
  function Answer(cs: set<Category>, ptz: bool, xaddr: string): Capabilities {
    Capabilities(if All in cs || Device in cs then Some(DeviceSection(xaddr, [(2, 0)])) else None,
                 if All in cs || Media in cs then Some(xaddr) else None,
                 if ptz && (All in cs || PTZ in cs) then Some(xaddr) else None)
  }

  /** Each section present in either answer. */
  function Merge(a: Capabilities, b: Capabilities): Capabilities {
    Capabilities(if a.device.Some? then a.device else b.device,
                 if a.media.Some? then a.media else b.media,
                 if a.ptz.Some? then a.ptz else b.ptz)
  }

  class CapabilitiesRequest {
    var category: seq<Category>

    constructor (category: seq<Category>)
      ensures this.category == category
    {
      this.category := category;
    }
  }

  class DeviceService {
    const ctx: ServiceContext

    constructor (ctx: ServiceContext)
      ensures this.ctx == ctx
    {
      this.ctx := ctx;
    }

    method GetServices(soapIp: uint32, includeCapability: bool) returns (services: seq<Service>)
      ensures |services| == if ctx.ptzEnable then 3 else 2
      ensures services[0].namespace == "http://www.onvif.org/ver10/device/wsdl"
      ensures services[0].major == 2 && services[0].minor == 5
      ensures services[1].namespace == "http://www.onvif.org/ver10/media/wsdl"
      ensures services[1].major == 2 && services[1].minor == 6
      ensures ctx.ptzEnable ==> services[2].namespace == "http://www.onvif.org/ver20/ptz/wsdl"
      ensures ctx.ptzEnable ==> services[2].major == 2 && services[2].minor == 4
      ensures forall i | 0 <= i < |services| :: services[i].xaddr == ctx.XAddr(soapIp)
      ensures forall i | 0 <= i < |services| :: services[i].capabilities.Some? <==> includeCapability
      ensures includeCapability ==> services[0].capabilities == Some(DeviceCapabilities)
      ensures includeCapability && ctx.ptzEnable ==> services[2].capabilities == Some(PtzCapabilities)
      ensures includeCapability ==> services[1].capabilities.value.OfMedia?
      ensures includeCapability ==>
                (services[1].capabilities.value.media.snapshotUri.Some? <==>
                 exists k :: k in ctx.profiles && ctx.profiles[k].snapurl != "")
    {
      var x := ctx.GetXAddr(soapIp);
      services := [Service(DEVICE_WSDL, x, 2, 5, if includeCapability then Some(DeviceCapabilities) else None)];
      var media := GetMediaServiceCapabilities(ctx);
      services := services + [Service(MEDIA_WSDL, x, 2, 6, if includeCapability then Some(OfMedia(media)) else None)];
      if ctx.ptzEnable {
        services := services + [Service(PTZ_WSDL, x, 2, 4, if includeCapability then Some(PtzCapabilities) else None)];
      }
    }

    /** The loop computes a function of the set of requested categories; the request is left
        with All if it was empty. */
    method GetCapabilities(request: CapabilitiesRequest, soapIp: uint32) returns (c: Capabilities)
      modifies request
      ensures var asked := old(request.category);
              c.device.Some? <==> asked == [] || All in asked || Device in asked
      ensures var asked := old(request.category);
              c.media.Some? <==> asked == [] || All in asked || Media in asked
      ensures var asked := old(request.category);
              c.ptz.Some? <==> ctx.ptzEnable && (asked == [] || All in asked || PTZ in asked)
      ensures c.device.Some? ==> c.device.value == DeviceSection(ctx.XAddr(soapIp), [(2, 0)])
      ensures c.media.Some? ==> c.media.value == ctx.XAddr(soapIp)
      ensures c.ptz.Some? ==> c.ptz.value == ctx.XAddr(soapIp)
      ensures exists ip :: ServedAs(ctx.endian, ctx.ethIfs, soapIp, ip)
                           && ctx.XAddr(soapIp) == "http://" + ip + ":" + IntText(ctx.settings.port)
      ensures c == Answer(Effective(old(request.category)), ctx.ptzEnable, old(ctx.XAddr(soapIp)))
      ensures request.category == if old(request.category) == [] then [All] else old(request.category)
    {
      var x := ctx.GetXAddr(soapIp);
      c := Capabilities(None, None, None);
      if request.category == [] {
        request.category := [All];
      }
      var categories := request.category;
      ghost var seen: set<Category> := {};
      for i := 0 to |categories|
        invariant request.category == categories
        invariant seen == SetOf(categories[..i])
        invariant c == Answer(seen, ctx.ptzEnable, x)
      {
        OneMore(categories, i);
        seen := seen + {categories[i]};
        if c.device == None && (categories[i] == All || categories[i] == Device) {
          c := c.(device := Some(DeviceSection(x, [(2, 0)])));
        }
        if c.media == None && (categories[i] == All || categories[i] == Media) {
          c := c.(media := Some(x));
        }
        if ctx.ptzEnable {
          if c.ptz == None && (categories[i] == All || categories[i] == PTZ) {
            c := c.(ptz := Some(x));
          }
        }
      }
      assert categories[..|categories|] == categories;
    }
  }

  lemma OneMore(cs: seq<Category>, i: nat)
    requires i < |cs|
    ensures SetOf(cs[..i + 1]) == SetOf(cs[..i]) + {cs[i]}
  {
    assert cs[..i + 1] == cs[..i] + [cs[i]];
  }

  /** The answer to two non-empty requests put together is the section-wise merge of their
      answers. */
  lemma AnswerOfUnion(cs: seq<Category>, ds: seq<Category>, ptz: bool, xaddr: string)
    requires cs != [] && ds != []
    ensures Answer(Effective(cs + ds), ptz, xaddr) ==
            Merge(Answer(Effective(cs), ptz, xaddr), Answer(Effective(ds), ptz, xaddr))
  {
    assert SetOf(cs + ds) == SetOf(cs) + SetOf(ds);
  }

  lemma SameCategories(cs: seq<Category>, ds: seq<Category>)
    requires multiset(cs) == multiset(ds)
    ensures Effective(cs) == Effective(ds)
  {
    assert |multiset(cs)| == |cs| && |multiset(ds)| == |ds|;
    forall c ensures c in cs <==> c in ds {
      assert c in multiset(cs) <==> c in multiset(ds);
    }
  }

  /** One client making four requests: permuting or repeating the categories changes nothing
      in the handler's answer, asking for nothing is asking for All, and two requests put
      together get the merge of what they get separately. */
  method AskAgain(d: DeviceService, cs: seq<Category>, ds: seq<Category>, soapIp: uint32)
    returns (first: Capabilities, second: Capabilities, both: Capabilities, nothing: Capabilities)
    ensures multiset(cs) == multiset(ds) ==> first == second
    ensures cs != [] && ds != [] && (forall c :: c in cs <==> c in ds) ==> first == second == both
    ensures cs != [] && ds != [] ==> both == Merge(first, second)
    ensures All in cs ==> first == nothing
  {
    first := AskFor(d, cs, soapIp);
    second := AskFor(d, ds, soapIp);
    both := AskFor(d, cs + ds, soapIp);
    nothing := AskFor(d, [], soapIp);
    if multiset(cs) == multiset(ds) {
      SameCategories(cs, ds);
    }
    if cs != [] && ds != [] {
      AnswerOfUnion(cs, ds, d.ctx.ptzEnable, d.ctx.XAddr(soapIp));
      assert (forall c :: c in cs <==> c in ds) ==> SetOf(cs) == SetOf(ds);
    }
  }

  method AskFor(d: DeviceService, cs: seq<Category>, soapIp: uint32) returns (c: Capabilities)
    ensures c == Answer(Effective(cs), d.ctx.ptzEnable, d.ctx.XAddr(soapIp))
  {
    var request := new CapabilitiesRequest(cs);
    c := d.GetCapabilities(request, soapIp);
  }

  /** One client asking for everything both ways: the two answers advertise the same services
      at the same addresses, PTZ in both or in neither. */
  method AskBothWays(d: DeviceService, soapIp: uint32) returns (services: seq<Service>, c: Capabilities)
    ensures Listed(services) == Advertised(c)
    ensures c.ptz.Some? <==> d.ctx.ptzEnable
    ensures (exists i :: 0 <= i < |services| && services[i].namespace == PTZ_WSDL) <==> d.ctx.ptzEnable
  {
    services := d.GetServices(soapIp, false);
    c := AskFor(d, [], soapIp);
    assert Listed(services) == Advertised(c) by {
      assert |services| == |Advertised(c)|;
    }
  }
}
