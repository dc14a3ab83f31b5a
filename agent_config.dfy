/**
 * The configuration dump of vpp/agent/config.go: the flat list of key/value records
 * that `agentctl dump` returns is classified by model into six typed buckets
 * (`RetrieveConfig`), and four read-only queries correlate the buckets.
 *
 * The model registry (`models.GetModelForKey(key).Name()`) and the JSON decoders
 * are not part of this model: they are the uninterpreted, total functions of a
 * `Codec`, each returning None where the library returns an error.
 */
module AgentConfig {
  import opened Wrappers

  newtype byte = x: int | 0 <= x < 256

  /** A json.RawMessage: the undecoded bytes of a value. */
  type RawMessage = seq<byte>

  newtype int32 = x: int | -0x8000_0000 <= x < 0x8000_0000

  /** api.ValueOrigin of the KV scheduler. */
  datatype ValueOrigin = UnknownOrigin | FromNB | FromSB

  /** Record metadata, kept opaque: each value as its JSON text. */
  type Metadata = map<string, string>

  /** One record of the dump (`kvdata`). */
  datatype KvData = KvData(key: string, value: RawMessage, metadata: Metadata, origin: ValueOrigin)

  /** The protobuf fields of a decoded value that the core never reads, kept opaque. */
  type Fields = map<string, string>

  /** vpp_interfaces.Interface_Type, a protobuf enum. */
  type InterfaceType = int32

  datatype VppInterfaceValue = VppInterfaceValue(interfaceType: InterfaceType, fields: Fields)
  datatype LinuxInterfaceValue = LinuxInterfaceValue(fields: Fields)
  datatype XConnectPair = XConnectPair(receiveInterface: string, transmitInterface: string)
  datatype TunnelProtection = TunnelProtection(tunInterface: string, fields: Fields)
  datatype SecurityAssociation = SecurityAssociation(fields: Fields)
  datatype SecurityPolicyDatabase = SecurityPolicyDatabase(fields: Fields)

  /** A record together with its decoded value: the source's `VppInterface`, `VppL2XConnect`, ... */
  datatype Typed<V> = Typed(kv: KvData, value: V)

  type VppInterface = Typed<VppInterfaceValue>
  type LinuxInterface = Typed<LinuxInterfaceValue>
  type VppL2XConnect = Typed<XConnectPair>
  type VppIPSecTunProtect = Typed<TunnelProtection>
  type VppIPSecSA = Typed<SecurityAssociation>
  type VppIPSecSPD = Typed<SecurityPolicyDatabase>

  datatype VppConfig = VppConfig(
    interfaces: seq<VppInterface>,
    l2XConnects: seq<VppL2XConnect>,
    ipsecTunProtects: seq<VppIPSecTunProtect>,
    ipsecSAs: seq<VppIPSecSA>,
    ipsecSPDs: seq<VppIPSecSPD>)

  datatype LinuxConfig = LinuxConfig(interfaces: seq<LinuxInterface>)

  /** `Config`: the dataplane-side and the host-side buckets. */
  datatype Config = Config(vpp: VppConfig, linux: LinuxConfig)

  /** The zero value of `Config`: every bucket empty. */
  const EmptyConfig := Config(VppConfig([], [], [], [], []), LinuxConfig([]))

  /**
   * The external collaborators: `resolve` is the model registry (the model name of a
   * key), `decodeDump` the unmarshaling of the whole dump, and one decoder per
   * bucket for a record's value. None stands for the library's error.
   */
  datatype Codec = Codec(
    resolve: string -> Option<string>,
    decodeDump: RawMessage -> Option<seq<KvData>>,
    decodeVppInterface: RawMessage -> Option<VppInterfaceValue>,
    decodeLinuxInterface: RawMessage -> Option<LinuxInterfaceValue>,
    decodeXConnect: RawMessage -> Option<XConnectPair>,
    decodeTunProtect: RawMessage -> Option<TunnelProtection>,
    decodeSA: RawMessage -> Option<SecurityAssociation>,
    decodeSPD: RawMessage -> Option<SecurityPolicyDatabase>)

  /** The six buckets of a `Config`. */
  datatype Bucket = VppInterfaces | LinuxInterfaces | L2XConnects | IPSecTunProtects | IPSecSAs | IPSecSPDs

  /** The registry names of the six models the dump is classified by. */
  const VppInterfaceModel := "vpp.interfaces"
  const LinuxInterfaceModel := "linux.interfaces.interface"
  const XConnectModel := "vpp.l2.xconnect"
  const TunProtectModel := "vpp.ipsec.tun-protect"
  const SAModel := "vpp.ipsec.sa"
  const SPDModel := "vpp.ipsec.spd"

  /** The model whose records go to bucket `b`. */
  function ModelName(b: Bucket): string {
    match b
    case VppInterfaces => VppInterfaceModel
    case LinuxInterfaces => LinuxInterfaceModel
    case L2XConnects => XConnectModel
    case IPSecTunProtects => TunProtectModel
    case IPSecSAs => SAModel
    case IPSecSPDs => SPDModel
  }

  /** The closed dispatch of the switch: the bucket of a model name, None for any other model. */
  function BucketOf(name: string): (r: Option<Bucket>)
    ensures forall b :: r == Some(b) <==> ModelName(b) == name
  {
    if name == VppInterfaceModel then Some(VppInterfaces)
    else if name == LinuxInterfaceModel then Some(LinuxInterfaces)
    else if name == XConnectModel then Some(L2XConnects)
    else if name == TunProtectModel then Some(IPSecTunProtects)
    else if name == SAModel then Some(IPSecSAs)
    else if name == SPDModel then Some(IPSecSPDs)
    else None
  }

  /** Whether the decoder of bucket `b` accepts `raw`. */
  predicate Decodes(codec: Codec, b: Bucket, raw: RawMessage) {
    match b
    case VppInterfaces => codec.decodeVppInterface(raw).Some?
    case LinuxInterfaces => codec.decodeLinuxInterface(raw).Some?
    case L2XConnects => codec.decodeXConnect(raw).Some?
    case IPSecTunProtects => codec.decodeTunProtect(raw).Some?
    case IPSecSAs => codec.decodeSA(raw).Some?
    case IPSecSPDs => codec.decodeSPD(raw).Some?
  }

  /**
   * The bucket a record lands in: the one of its key's model, provided the model is
   * one of the six and the value decodes; None when the record is skipped.
   */
  function Route(codec: Codec, item: KvData): Option<Bucket> {
    match codec.resolve(item.key)
    case None => None
    case Some(name) =>
      match BucketOf(name)
      case None => None
      case Some(b) => if Decodes(codec, b, item.value) then Some(b) else None
  }

  // ---------------------------------------------------------------------------
  // The specification of the classification

  /**
   * The typed records of bucket `b` in a dump, in dump order: every record whose key
   * resolves to b's model and whose value `decode` accepts, paired with that value.
   */
  function Collect<V>(list: seq<KvData>, codec: Codec, b: Bucket, decode: RawMessage -> Option<V>): (r: seq<Typed<V>>)
    ensures |r| <= |list|
    ensures forall k :: 0 <= k < |r| ==> codec.resolve(r[k].kv.key) == Some(ModelName(b))
                                         && decode(r[k].kv.value) == Some(r[k].value)
  {
    if list == [] then []
    else
      var item := list[|list| - 1];
      var rest := Collect(list[..|list| - 1], codec, b, decode);
      match decode(item.value)
      case Some(v) =>
        if codec.resolve(item.key) == Some(ModelName(b)) then rest + [Typed(item, v)] else rest
      case None => rest
  }

  /** The configuration a dump classifies to, one `Collect` per bucket. */
  function Classify(list: seq<KvData>, codec: Codec): Config {
    Config(
      VppConfig(
        Collect(list, codec, VppInterfaces, codec.decodeVppInterface),
        Collect(list, codec, L2XConnects, codec.decodeXConnect),
        Collect(list, codec, IPSecTunProtects, codec.decodeTunProtect),
        Collect(list, codec, IPSecSAs, codec.decodeSA),
        Collect(list, codec, IPSecSPDs, codec.decodeSPD)),
      LinuxConfig(Collect(list, codec, LinuxInterfaces, codec.decodeLinuxInterface)))
  }

  // ---------------------------------------------------------------------------
  // retrieveConfig

  /** The hard errors of retrieveConfig; skipped records are not errors. */
  datatype RetrieveError =
    | DumpingFailed(cause: Error)  // the agentctl command failed
    | UnmarshalingDumpFailed       // the dump is not a JSON list of records

  /**
   * retrieveConfig, from the reply of `agentctl dump` on: a failed command or an
   * undecodable dump is a hard error with no config; otherwise every record is
   * classified in order, skipping those that do not resolve, do not decode, or
   * belong to another model.
   */
  method RetrieveConfig(dump: Result<RawMessage, Error>, codec: Codec) returns (r: Result<Config, RetrieveError>)
    ensures dump.Failure? ==> r == Failure(DumpingFailed(dump.error))
    ensures dump.Success? && codec.decodeDump(dump.value).None? ==> r == Failure(UnmarshalingDumpFailed)
    ensures dump.Success? && codec.decodeDump(dump.value).Some?
            ==> r == Success(Classify(codec.decodeDump(dump.value).value, codec))
  {
    if dump.Failure? {
      return Failure(DumpingFailed(dump.error));
    }
    var decoded := codec.decodeDump(dump.value);
    if decoded.None? {
      return Failure(UnmarshalingDumpFailed);
    }
    var list := decoded.value;
    var config := EmptyConfig;
    for i := 0 to |list|
      invariant config == Classify(list[..i], codec)
    {
      var item := list[i];
      assert list[..i + 1][..i] == list[..i];
      var model := codec.resolve(item.key);
      if model.None? {
        continue;
      }
      var name := model.value;
      if name == VppInterfaceModel {
        var value := codec.decodeVppInterface(item.value);
        if value.None? {
          continue;
        }
        config := config.(vpp := config.vpp.(interfaces := config.vpp.interfaces + [Typed(item, value.value)]));
      } else if name == LinuxInterfaceModel {
        var value := codec.decodeLinuxInterface(item.value);
        if value.None? {
          continue;
        }
        config := config.(linux := config.linux.(interfaces := config.linux.interfaces + [Typed(item, value.value)]));
      } else if name == XConnectModel {
        var value := codec.decodeXConnect(item.value);
        if value.None? {
          continue;
        }
        config := config.(vpp := config.vpp.(l2XConnects := config.vpp.l2XConnects + [Typed(item, value.value)]));
      } else if name == TunProtectModel {
        var value := codec.decodeTunProtect(item.value);
        if value.None? {
          continue;
        }
        config := config.(vpp := config.vpp.(ipsecTunProtects := config.vpp.ipsecTunProtects + [Typed(item, value.value)]));
      } else if name == SAModel {
        var value := codec.decodeSA(item.value);
        if value.None? {
          continue;
        }
        config := config.(vpp := config.vpp.(ipsecSAs := config.vpp.ipsecSAs + [Typed(item, value.value)]));
      } else if name == SPDModel {
        var value := codec.decodeSPD(item.value);
        if value.None? {
          continue;
        }
        config := config.(vpp := config.vpp.(ipsecSPDs := config.vpp.ipsecSPDs + [Typed(item, value.value)]));
      }
    }
    assert list[..|list|] == list;
    return Success(config);
  }

  // ---------------------------------------------------------------------------
  // Queries

  /** Whether some interface of `ifaces` has type `typ`, scanning from the front. */
  function AnyOfType(ifaces: seq<VppInterface>, typ: InterfaceType): (found: bool)
    ensures found <==> exists i :: 0 <= i < |ifaces| && ifaces[i].value.interfaceType == typ
  {
    if ifaces == [] then false
    else if ifaces[0].value.interfaceType == typ then true
    else
      var found := AnyOfType(ifaces[1..], typ);
      assert forall i :: 1 <= i < |ifaces| ==> ifaces[i] == ifaces[1..][i - 1];
      found
  }

  /** `(*Config).HasVppInterfaceType`: some VPP interface has type `typ`; Linux interfaces are not consulted. */
  function HasVppInterfaceType(c: Config, typ: InterfaceType): (found: bool)
    ensures found <==> exists iface :: iface in c.vpp.interfaces && iface.value.interfaceType == typ
  {
    AnyOfType(c.vpp.interfaces, typ)
  }

  /** A cross-connect uses an interface on its receive or its transmit side. */
  predicate XConnectUses(xconn: VppL2XConnect, intfName: string) {
    intfName == xconn.value.receiveInterface || intfName == xconn.value.transmitInterface
  }

  /**
   * FindL2XconnFor: the first cross-connect, in stored order, that uses `intfName`;
   * None exactly when none does (in particular for an empty list).
   */
  function FindL2XconnFor(intfName: string, l2XConnects: seq<VppL2XConnect>): (r: Option<VppL2XConnect>)
    ensures r.None? <==> forall i :: 0 <= i < |l2XConnects| ==> !XConnectUses(l2XConnects[i], intfName)
    ensures r.Some? ==> exists i :: 0 <= i < |l2XConnects| && l2XConnects[i] == r.value
                                    && XConnectUses(l2XConnects[i], intfName)
                                    && forall j :: 0 <= j < i ==> !XConnectUses(l2XConnects[j], intfName)
  {
    if l2XConnects == [] then None
    else if XConnectUses(l2XConnects[0], intfName) then Some(l2XConnects[0])
    else
      var r := FindL2XconnFor(intfName, l2XConnects[1..]);
      assert forall i :: 1 <= i < |l2XConnects| ==> l2XConnects[i] == l2XConnects[1..][i - 1];
      r
  }

  /**
   * FindIPSecTunProtectFor: the first tunnel protection, in stored order, bound to
   * `intfName`; None exactly when none is.
   */
  function FindIPSecTunProtectFor(intfName: string, tunProtects: seq<VppIPSecTunProtect>): (r: Option<VppIPSecTunProtect>)
    ensures r.None? <==> forall i :: 0 <= i < |tunProtects| ==> tunProtects[i].value.tunInterface != intfName
    ensures r.Some? ==> exists i :: 0 <= i < |tunProtects| && tunProtects[i] == r.value
                                    && tunProtects[i].value.tunInterface == intfName
                                    && forall j :: 0 <= j < i ==> tunProtects[j].value.tunInterface != intfName
  {
    if tunProtects == [] then None
    else if tunProtects[0].value.tunInterface == intfName then Some(tunProtects[0])
    else
      var r := FindIPSecTunProtectFor(intfName, tunProtects[1..]);
      assert forall i :: 1 <= i < |tunProtects| ==> tunProtects[i] == tunProtects[1..][i - 1];
      r
  }

  /** The three IPSec buckets. */
  predicate IsIPSec(b: Bucket) {
    b == IPSecTunProtects || b == IPSecSAs || b == IPSecSPDs
  }

  /** HasAnyIPSecConfig: a nil config has none; otherwise some IPSec bucket is non-empty. */
  function HasAnyIPSecConfig(config: Option<Config>): (any: bool)
    ensures config.None? ==> !any
    ensures config.Some? ==> (any <==> exists b :: IsIPSec(b) && Count(config.value, b) > 0)
  {
    match config
    case None => false
    case Some(c) =>
      var any := |c.vpp.ipsecTunProtects| > 0 || |c.vpp.ipsecSAs| > 0 || |c.vpp.ipsecSPDs| > 0;
      assert any ==> Count(c, IPSecTunProtects) > 0 || Count(c, IPSecSAs) > 0 || Count(c, IPSecSPDs) > 0;
      any
  }

  // ---------------------------------------------------------------------------
  // Buckets seen as records

  /** The records behind a bucket's typed entries, in order. */
  function Records<V>(s: seq<Typed<V>>): (r: seq<KvData>)
    ensures |r| == |s| && forall k :: 0 <= k < |s| ==> r[k] == s[k].kv
  {
    seq(|s|, k requires 0 <= k < |s| => s[k].kv)
  }

  /** The records of bucket `b` of `c`. */
  function RecordsOf(c: Config, b: Bucket): seq<KvData> {
    match b
    case VppInterfaces => Records(c.vpp.interfaces)
    case LinuxInterfaces => Records(c.linux.interfaces)
    case L2XConnects => Records(c.vpp.l2XConnects)
    case IPSecTunProtects => Records(c.vpp.ipsecTunProtects)
    case IPSecSAs => Records(c.vpp.ipsecSAs)
    case IPSecSPDs => Records(c.vpp.ipsecSPDs)
  }

  /** The number of entries of bucket `b` of `c`. */
  function Count(c: Config, b: Bucket): nat {
    |RecordsOf(c, b)|
  }

  /** The number of entries of all six buckets. */
  function Size(c: Config): nat {
    Count(c, VppInterfaces) + Count(c, LinuxInterfaces) + Count(c, L2XConnects)
    + Count(c, IPSecTunProtects) + Count(c, IPSecSAs) + Count(c, IPSecSPDs)
  }

  /** The records of `list` routed to bucket `b`, in order. */
  function RoutedTo(list: seq<KvData>, codec: Codec, b: Bucket): seq<KvData> {
    if list == [] then []
    else
      var rest := RoutedTo(list[..|list| - 1], codec, b);
      if Route(codec, list[|list| - 1]) == Some(b) then rest + [list[|list| - 1]] else rest
  }

  /** The number of records of `list` that are routed somewhere, i.e. not skipped. */
  function RoutedCount(list: seq<KvData>, codec: Codec): nat {
    CountWhere(list, (item: KvData) => Route(codec, item).Some?)
  }

  /** The number of elements of `s` that satisfy `p`. */
  function CountWhere<T>(s: seq<T>, p: T -> bool): nat {
    if s == [] then 0
    else CountWhere(s[..|s| - 1], p) + (if p(s[|s| - 1]) then 1 else 0)
  }


  /** The bucket-wise concatenation of two configurations. */
  function Join(c1: Config, c2: Config): Config {
    Config(
      VppConfig(
        c1.vpp.interfaces + c2.vpp.interfaces,
        c1.vpp.l2XConnects + c2.vpp.l2XConnects,
        c1.vpp.ipsecTunProtects + c2.vpp.ipsecTunProtects,
        c1.vpp.ipsecSAs + c2.vpp.ipsecSAs,
        c1.vpp.ipsecSPDs + c2.vpp.ipsecSPDs),
      LinuxConfig(c1.linux.interfaces + c2.linux.interfaces))
  }

  // ---------------------------------------------------------------------------
  // Properties of the classification

  /** `decode` is the decoder of bucket `b`: it accepts exactly what `Decodes` says. */
  ghost predicate DecoderOf<V>(codec: Codec, b: Bucket, decode: RawMessage -> Option<V>) {
    forall raw :: decode(raw).Some? <==> Decodes(codec, b, raw)
  }

  lemma DecodersOf(codec: Codec)
    ensures DecoderOf(codec, VppInterfaces, codec.decodeVppInterface)
    ensures DecoderOf(codec, LinuxInterfaces, codec.decodeLinuxInterface)
    ensures DecoderOf(codec, L2XConnects, codec.decodeXConnect)
    ensures DecoderOf(codec, IPSecTunProtects, codec.decodeTunProtect)
    ensures DecoderOf(codec, IPSecSAs, codec.decodeSA)
    ensures DecoderOf(codec, IPSecSPDs, codec.decodeSPD)
  {
  }

  /** A record goes to bucket `b` exactly when its key resolves to b's model and b's decoder accepts its value. */
  lemma RouteIs(codec: Codec, item: KvData, b: Bucket)
    ensures Route(codec, item) == Some(b)
            <==> codec.resolve(item.key) == Some(ModelName(b)) && Decodes(codec, b, item.value)
  {
  }

  lemma {:induction false} CollectRecords<V>(list: seq<KvData>, codec: Codec, b: Bucket, decode: RawMessage -> Option<V>)
    requires DecoderOf(codec, b, decode)
    ensures Records(Collect(list, codec, b, decode)) == RoutedTo(list, codec, b)
  {
    if list != [] {
      var item := list[|list| - 1];
      CollectRecords(list[..|list| - 1], codec, b, decode);
      RouteIs(codec, item, b);
      var rest := Collect(list[..|list| - 1], codec, b, decode);
      if decode(item.value).Some? && codec.resolve(item.key) == Some(ModelName(b)) {
        assert Records(rest + [Typed(item, decode(item.value).value)]) == Records(rest) + [item];
      }
    }
  }

  /** Each bucket of the classified dump holds, in dump order, exactly the records routed to it. */
  lemma ClassifyRecords(list: seq<KvData>, codec: Codec, b: Bucket)
    ensures RecordsOf(Classify(list, codec), b) == RoutedTo(list, codec, b)
  {
    DecodersOf(codec);
    match b
    case VppInterfaces => CollectRecords(list, codec, b, codec.decodeVppInterface);
    case LinuxInterfaces => CollectRecords(list, codec, b, codec.decodeLinuxInterface);
    case L2XConnects => CollectRecords(list, codec, b, codec.decodeXConnect);
    case IPSecTunProtects => CollectRecords(list, codec, b, codec.decodeTunProtect);
    case IPSecSAs => CollectRecords(list, codec, b, codec.decodeSA);
    case IPSecSPDs => CollectRecords(list, codec, b, codec.decodeSPD);
  }

  lemma {:induction false} RoutedToMembership(list: seq<KvData>, codec: Codec, b: Bucket, kv: KvData)
    ensures kv in RoutedTo(list, codec, b) <==> kv in list && Route(codec, kv) == Some(b)
  {
    if list != [] {
      RoutedToMembership(list[..|list| - 1], codec, b, kv);
      assert list == list[..|list| - 1] + [list[|list| - 1]];
    }
  }

  /** A record is in bucket `b` of the classified dump iff it is in the dump and routed to `b`. */
  lemma ClassifyMembership(list: seq<KvData>, codec: Codec, b: Bucket, kv: KvData)
    ensures kv in RecordsOf(Classify(list, codec), b) <==> kv in list && Route(codec, kv) == Some(b)
  {
    ClassifyRecords(list, codec, b);
    RoutedToMembership(list, codec, b, kv);
  }

  /** No record of the dump lands in two buckets. */
  lemma AtMostOneBucket(list: seq<KvData>, codec: Codec, kv: KvData, b1: Bucket, b2: Bucket)
    requires kv in RecordsOf(Classify(list, codec), b1) && kv in RecordsOf(Classify(list, codec), b2)
    ensures b1 == b2
  {
    ClassifyMembership(list, codec, b1, kv);
    ClassifyMembership(list, codec, b2, kv);
  }

  lemma {:induction false} CollectAppend<V>(xs: seq<KvData>, ys: seq<KvData>, codec: Codec, b: Bucket, decode: RawMessage -> Option<V>)
    ensures Collect(xs + ys, codec, b, decode) == Collect(xs, codec, b, decode) + Collect(ys, codec, b, decode)
  {
    if ys == [] {
      assert xs + ys == xs;
    } else {
      var init := ys[..|ys| - 1];
      CollectAppend(xs, init, codec, b, decode);
      assert (xs + ys)[..|xs + ys| - 1] == xs + init;
      assert (xs + ys)[|xs + ys| - 1] == ys[|ys| - 1];
    }
  }

  /** Classifying a concatenation of dumps concatenates the buckets: order within each bucket follows the dump. */
  lemma ClassifyAppend(xs: seq<KvData>, ys: seq<KvData>, codec: Codec)
    ensures Classify(xs + ys, codec) == Join(Classify(xs, codec), Classify(ys, codec))
  {
    CollectAppend(xs, ys, codec, VppInterfaces, codec.decodeVppInterface);
    CollectAppend(xs, ys, codec, LinuxInterfaces, codec.decodeLinuxInterface);
    CollectAppend(xs, ys, codec, L2XConnects, codec.decodeXConnect);
    CollectAppend(xs, ys, codec, IPSecTunProtects, codec.decodeTunProtect);
    CollectAppend(xs, ys, codec, IPSecSAs, codec.decodeSA);
    CollectAppend(xs, ys, codec, IPSecSPDs, codec.decodeSPD);
  }

  /** A single record lands in its routed bucket, and nowhere else. */
  lemma ClassifyOne(item: KvData, codec: Codec, b: Bucket)
    ensures RecordsOf(Classify([item], codec), b) == if Route(codec, item) == Some(b) then [item] else []
  {
    ClassifyRecords([item], codec, b);
    assert [item][..0] == [];
  }

  /**
   * A record that is skipped (its key does not resolve, its model is none of the six,
   * or its value does not decode) leaves the result as if it were not in the dump.
   */
  lemma ClassifySkipped(pre: seq<KvData>, item: KvData, post: seq<KvData>, codec: Codec)
    requires Route(codec, item).None?
    ensures Classify(pre + [item] + post, codec) == Classify(pre + post, codec)
  {
    ClassifyAppend(pre + [item], post, codec);
    ClassifyAppend(pre, [item], codec);
    ClassifyAppend(pre, post, codec);
    SkippedAlone(item, codec);
  }

  lemma SkippedAlone(item: KvData, codec: Codec)
    requires Route(codec, item).None?
    ensures Classify([item], codec) == EmptyConfig
  {
    assert [item][..0] == [];
    RouteIs(codec, item, VppInterfaces);
    RouteIs(codec, item, LinuxInterfaces);
    RouteIs(codec, item, L2XConnects);
    RouteIs(codec, item, IPSecTunProtects);
    RouteIs(codec, item, IPSecSAs);
    RouteIs(codec, item, IPSecSPDs);
  }

  /** Each record of the dump that is routed somewhere adds exactly one entry to the six buckets together. */
  lemma {:induction false} SizeIsRoutedCount(list: seq<KvData>, codec: Codec)
    ensures Size(Classify(list, codec)) == RoutedCount(list, codec)
  {
    forall b: Bucket
      ensures Count(Classify(list, codec), b) == |RoutedTo(list, codec, b)|
    {
      ClassifyRecords(list, codec, b);
    }
    RoutedSum(list, codec);
  }

  lemma {:induction false} RoutedSum(list: seq<KvData>, codec: Codec)
    ensures |RoutedTo(list, codec, VppInterfaces)| + |RoutedTo(list, codec, LinuxInterfaces)|
            + |RoutedTo(list, codec, L2XConnects)| + |RoutedTo(list, codec, IPSecTunProtects)|
            + |RoutedTo(list, codec, IPSecSAs)| + |RoutedTo(list, codec, IPSecSPDs)|
            == RoutedCount(list, codec)
  {
    if list != [] {
      RoutedSum(list[..|list| - 1], codec);
    }
  }

  lemma {:induction false} CountWhereBound<T>(s: seq<T>, p: T -> bool)
    ensures CountWhere(s, p) <= |s|
    ensures CountWhere(s, p) == |s| <==> forall i :: 0 <= i < |s| ==> p(s[i])
  {
    if s != [] {
      var init := s[..|s| - 1];
      CountWhereBound(init, p);
      if forall i :: 0 <= i < |s| ==> p(s[i]) {
        assert forall i :: 0 <= i < |init| ==> init[i] == s[i];
      }
      if (forall i :: 0 <= i < |init| ==> p(init[i])) && p(s[|s| - 1]) {
        assert forall i :: 0 <= i < |init| ==> init[i] == s[i];
      }
    }
  }

  lemma RoutedCountBound(list: seq<KvData>, codec: Codec)
    ensures RoutedCount(list, codec) <= |list|
    ensures RoutedCount(list, codec) == |list| <==> AllRouted(list, codec)
  {
    CountWhereBound(list, (item: KvData) => Route(codec, item).Some?);
  }

  /** No record of the dump is skipped. */
  predicate AllRouted(list: seq<KvData>, codec: Codec) {
    forall i :: 0 <= i < |list| ==> Route(codec, list[i]).Some?
  }

  /**
   * The buckets together hold at most as many entries as the dump has records, and
   * exactly as many iff no record is skipped.
   */
  lemma ClassifySize(list: seq<KvData>, codec: Codec)
    ensures Size(Classify(list, codec)) <= |list|
    ensures Size(Classify(list, codec)) == |list| <==> AllRouted(list, codec)
  {
    SizeIsRoutedCount(list, codec);
    RoutedCountBound(list, codec);
  }

  lemma {:induction false} CollectMembership<V>(list: seq<KvData>, codec: Codec, b: Bucket, decode: RawMessage -> Option<V>, t: Typed<V>)
    ensures t in Collect(list, codec, b, decode)
            <==> t.kv in list && codec.resolve(t.kv.key) == Some(ModelName(b)) && decode(t.kv.value) == Some(t.value)
  {
    if list != [] {
      CollectMembership(list[..|list| - 1], codec, b, decode, t);
      assert list == list[..|list| - 1] + [list[|list| - 1]];
    }
  }

  /** The classified dump has a VPP interface of type `typ` iff the dump has a VPP interface record decoding to that type. */
  lemma HasVppInterfaceTypeOfDump(list: seq<KvData>, codec: Codec, typ: InterfaceType)
    ensures HasVppInterfaceType(Classify(list, codec), typ)
            <==> exists kv, v :: kv in list && codec.resolve(kv.key) == Some(VppInterfaceModel)
                                 && codec.decodeVppInterface(kv.value) == Some(v) && v.interfaceType == typ
  {
    var ifaces := Classify(list, codec).vpp.interfaces;
    forall t: VppInterface
      ensures t in ifaces <==> t.kv in list && codec.resolve(t.kv.key) == Some(VppInterfaceModel)
                               && codec.decodeVppInterface(t.kv.value) == Some(t.value)
    {
      CollectMembership(list, codec, VppInterfaces, codec.decodeVppInterface, t);
    }
    if exists kv, v :: kv in list && codec.resolve(kv.key) == Some(VppInterfaceModel)
                       && codec.decodeVppInterface(kv.value) == Some(v) && v.interfaceType == typ {
      var kv, v :| kv in list && codec.resolve(kv.key) == Some(VppInterfaceModel)
                   && codec.decodeVppInterface(kv.value) == Some(v) && v.interfaceType == typ;
      assert Typed(kv, v) in ifaces;
    }
  }

  /** The classified dump has some IPSec configuration iff some record of the dump is routed to an IPSec bucket. */
  lemma HasAnyIPSecConfigOfDump(list: seq<KvData>, codec: Codec)
    ensures HasAnyIPSecConfig(Some(Classify(list, codec)))
            <==> exists kv :: kv in list && Route(codec, kv).Some? && IsIPSec(Route(codec, kv).value)
  {
    var c := Classify(list, codec);
    if exists kv :: kv in list && Route(codec, kv).Some? && IsIPSec(Route(codec, kv).value) {
      var kv :| kv in list && Route(codec, kv).Some? && IsIPSec(Route(codec, kv).value);
      var b := Route(codec, kv).value;
      ClassifyMembership(list, codec, b, kv);
      assert Count(c, b) > 0;
    }
    if HasAnyIPSecConfig(Some(c)) {
      var b :| IsIPSec(b) && Count(c, b) > 0;
      var kv := RecordsOf(c, b)[0];
      ClassifyMembership(list, codec, b, kv);
      assert kv in list && Route(codec, kv) == Some(b);
    }
  }
}
