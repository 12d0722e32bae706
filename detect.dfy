/**
 * How the crate decides whether it runs on Google Compute Engine
 * (src/metadata.rs:45-102). The environment variable, the probes' replies,
 * the resolved addresses, the order in which the two probes answer and the
 * DMI product file are inputs; what is modelled is what the crate makes of
 * them.
 */
module Detect {
  import opened Errors
  import opened Text

  const METADATA_FLAVOR := "Metadata-Flavor"
  const GOOGLE := "Google"
  const GOOGLE_COMPUTE_ENGINE := "Google Compute Engine"

  /** One response header as received. */
  datatype Header = Header(name: string, value: string)

  /** ASCII lower case, the form in which header names are compared. */
  function AsciiLower(c: char): (r: char)
    ensures 'A' <= c <= 'Z' ==> 'a' <= r <= 'z' && r as int - c as int == 32
    ensures !('A' <= c <= 'Z') ==> r == c
  {
    if 'A' <= c <= 'Z' then (c as int + 32) as char else c
  }

  function Lower(s: string): (r: string)
    ensures |r| == |s| && forall i :: 0 <= i < |s| ==> r[i] == AsciiLower(s[i])
  {
    seq(|s|, i requires 0 <= i < |s| => AsciiLower(s[i]))
  }

  /** Header names match regardless of ASCII case. */
  predicate SameName(a: string, b: string) {
    Lower(a) == Lower(b)
  }

  /** The position of the first header called `name`, or the length when there is none. */
  function HeaderIndex(headers: seq<Header>, name: string): (k: nat)
    ensures k <= |headers|
    ensures forall j :: 0 <= j < k ==> !SameName(headers[j].name, name)
    ensures k < |headers| ==> SameName(headers[k].name, name)
  {
    if headers == [] then 0
    else if SameName(headers[0].name, name) then 0
    else 1 + HeaderIndex(headers[1..], name)
  }

  /** The header map's `get`: the value of the first header called `name`. */
  function HeaderGet(headers: seq<Header>, name: string): (r: Option<string>)
    ensures r.None? <==> forall j :: 0 <= j < |headers| ==> !SameName(headers[j].name, name)
    ensures r.Some? ==> exists k :: (0 <= k < |headers| && SameName(headers[k].name, name)
      && headers[k].value == r.value && forall j :: 0 <= j < k ==> !SameName(headers[j].name, name))
  {
    var k := HeaderIndex(headers, name);
    if k < |headers| then Some(headers[k].value) else None
  }

  /**
   * `has_meta_header` (metadata.rs:63-74) on the reply to a plain request for
   * the metadata root, `None` when the request failed: true exactly when the
   * reply's first `Metadata-Flavor` header, named in any case, is `Google`
   * exactly. The status of the reply does not matter.
   */
  function HasMetaHeader(reply: Option<seq<Header>>): (b: bool)
    ensures reply.None? ==> !b
    ensures b ==> exists k :: (0 <= k < |reply.value| && SameName(reply.value[k].name, METADATA_FLAVOR)
      && reply.value[k].value == GOOGLE)
    ensures b <==> reply.Some? && (var k := HeaderIndex(reply.value, METADATA_FLAVOR);
      k < |reply.value| && reply.value[k].value == GOOGLE)
  {
    match reply
    case None => false
    case Some(headers) => HeaderGet(headers, METADATA_FLAVOR) == Some(GOOGLE)
  }

  /**
   * Only the first header of that name is read, wherever it stands: other
   * headers before it do not matter, and a later `Google` does not make up
   * for a different value in it.
   */
  lemma FirstFlavorHeaderDecides(pre: seq<Header>, first: Header, rest: seq<Header>)
    requires forall j :: 0 <= j < |pre| ==> !SameName(pre[j].name, METADATA_FLAVOR)
    requires SameName(first.name, METADATA_FLAVOR)
    ensures HasMetaHeader(Some(pre + [first] + rest)) <==> first.value == GOOGLE
  {
    var headers := pre + [first] + rest;
    assert headers[|pre|] == first;
    assert forall j :: 0 <= j < |pre| ==> headers[j] == pre[j];
    assert HeaderIndex(headers, METADATA_FLAVOR) == |pre|;
  }

  /** A reply without a `Metadata-Flavor` header does not count. */
  lemma NoFlavorHeader(headers: seq<Header>)
    requires forall j :: 0 <= j < |headers| ==> !SameName(headers[j].name, METADATA_FLAVOR)
    ensures !HasMetaHeader(Some(headers))
  {
  }

  /**
   * The header's name is matched in any case, its value is not; other headers
   * in front do not matter, and only the first flavor header is read.
   */
  lemma MetaHeaderExamples()
    ensures HasMetaHeader(Some([Header("metadata-flavor", GOOGLE)]))
    ensures !HasMetaHeader(Some([Header(METADATA_FLAVOR, "google")]))
    ensures HasMetaHeader(Some([Header("Content-Type", "text/plain"), Header(METADATA_FLAVOR, GOOGLE)]))
    ensures !HasMetaHeader(Some([Header(METADATA_FLAVOR, "x"), Header(METADATA_FLAVOR, GOOGLE)]))
  {
    var lower, exact := Header("metadata-flavor", GOOGLE), Header(METADATA_FLAVOR, "google");
    var other, good, bad := Header("Content-Type", "text/plain"), Header(METADATA_FLAVOR, GOOGLE), Header(METADATA_FLAVOR, "x");
    assert Lower(lower.name) == Lower(METADATA_FLAVOR);
    assert [lower] == [] + [lower] + [];
    FirstFlavorHeaderDecides([], lower, []);
    assert [exact] == [] + [exact] + [];
    FirstFlavorHeaderDecides([], exact, []);
    assert Lower(other.name)[0] != Lower(METADATA_FLAVOR)[0];
    assert [other, good] == [other] + [good] + [];
    FirstFlavorHeaderDecides([other], good, []);
    assert [bad, good] == [] + [bad] + [good];
    FirstFlavorHeaderDecides([], bad, [good]);
  }

  /** An IP address: four octets, or eight 16-bit segments. */
  datatype IpAddr = V4(a: nat, b: nat, c: nat, d: nat) | V6(segments: seq<nat>)

  /** A resolved socket address, compared as a whole. */
  datatype SocketAddr = SocketAddr(ip: IpAddr, port: nat)

  /** `169.254.169.254:0`, the address `has_target_ip` looks for (the metadata IP with port 0). */
  const TARGET_ADDR := SocketAddr(V4(169, 254, 169, 254), 0)

  /** Whether `target` is among `addrs`, walking the list as `Iterator::any` does. */
  function AnyIs(addrs: seq<SocketAddr>, target: SocketAddr): (b: bool)
    ensures b <==> target in addrs
  {
    if addrs == [] then false
    else addrs[0] == target || AnyIs(addrs[1..], target)
  }

  /**
   * `has_target_ip` (metadata.rs:76-86) on what resolving the metadata host
   * name gave, `None` when resolution failed: true exactly when the metadata
   * IP with port 0 is among the resolved addresses.
   */
  function HasTargetIp(resolved: Option<seq<SocketAddr>>): (b: bool)
    ensures b <==> resolved.Some? && TARGET_ADDR in resolved.value
  {
    match resolved
    case None => false
    case Some(addrs) => AnyIs(addrs, TARGET_ADDR)
  }

  /**
   * `running_on_gce` (metadata.rs:88-102): off Linux false; on Linux true
   * exactly when the DMI product name file could be read and, trimmed, is
   * `Google` or `Google Compute Engine`.
   */
  function RunningOnGce(linux: bool, productName: Option<string>): (b: bool)
    ensures b ==> linux && productName.Some?
    ensures b ==> Trim(productName.value) == GOOGLE || Trim(productName.value) == GOOGLE_COMPUTE_ENGINE
  {
    linux && productName.Some? && Trim(productName.value) in {GOOGLE, GOOGLE_COMPUTE_ENGINE}
  }

  /** Surrounding whitespace in the product file does not matter; the name itself must match exactly. */
  lemma ProductNamePadded(p: string, name: string, q: string)
    requires AllWhitespace(p) && AllWhitespace(q) && IsTrimmed(name)
    ensures RunningOnGce(true, Some(p + name + q)) <==> name == GOOGLE || name == GOOGLE_COMPUTE_ENGINE
  {
    TrimOfPadded(p, name, q);
  }

  lemma ProductNameExamples()
    ensures RunningOnGce(true, Some(GOOGLE_COMPUTE_ENGINE + "\n"))
    ensures !RunningOnGce(false, Some(GOOGLE))
    ensures !RunningOnGce(true, None)
  {
    assert IsTrimmed(GOOGLE_COMPUTE_ENGINE) by {
      assert GOOGLE_COMPUTE_ENGINE[0] == 'G';
    }
    assert AllWhitespace("\n");
    assert GOOGLE_COMPUTE_ENGINE + "\n" == "" + GOOGLE_COMPUTE_ENGINE + "\n";
    ProductNamePadded("", GOOGLE_COMPUTE_ENGINE, "\n");
  }

  /** What `test_on_gce` decided, and what it did on the way. */
  datatype Detection = Detection(onGce: bool, probed: bool, readDmi: bool, waitedSecond: bool)

  /**
   * `test_on_gce` (metadata.rs:45-61). `first` is the first probe result
   * received and `second` the second one received within five seconds,
   * `None` when nothing arrived; `dmi` is what `running_on_gce` says.
   * The first receive has no timeout, so `first` is `None` only when both
   * probe threads ended without sending.
   * A set `GCE_METADATA_HOST` decides at once and starts no probe.
   * Otherwise the answer is the first result, or else the DMI check and the
   * second result; the DMI file is read only when the first result is not
   * true, and the second result is awaited only when the DMI check passes.
   */
  function TestOnGce(hostVar: Option<string>, first: Option<bool>, dmi: bool, second: Option<bool>): (d: Detection)
    ensures hostVar.Some? ==> d == Detection(true, false, false, false)
    ensures hostVar.None? ==> d.probed
    ensures d.onGce <==> hostVar.Some? || first == Some(true) || (dmi && second == Some(true))
    ensures d.readDmi <==> hostVar.None? && first != Some(true)
    ensures d.waitedSecond <==> d.readDmi && dmi
  {
    if hostVar.Some? then Detection(true, false, false, false)
    else
      var firstOk := match first case Some(b) => b case None => false;
      if firstOk then Detection(true, true, false, false)
      else if !dmi then Detection(false, true, true, false)
      else
        var secondOk := match second case Some(b) => b case None => false;
        Detection(secondOk, true, true, true)
  }

  /** The two probe results in the order they arrive. */
  function Arrival(header: bool, ip: bool, headerFirst: bool): (Option<bool>, Option<bool>) {
    if headerFirst then (Some(header), Some(ip)) else (Some(ip), Some(header))
  }

  /** Where the DMI check passes, the order does not matter: either probe succeeding is enough. */
  lemma OrderIrrelevantOnGceHardware(header: bool, ip: bool, headerFirst: bool)
    ensures var probes := Arrival(header, ip, headerFirst);
      TestOnGce(None, probes.0, true, probes.1).onGce == (header || ip)
  {
  }

  /** Where it fails, only the probe that answers first counts: the rule is not symmetric in the two probes. */
  lemma FirstArrivalDecidesElsewhere(header: bool, ip: bool, headerFirst: bool)
    ensures var probes := Arrival(header, ip, headerFirst);
      TestOnGce(None, probes.0, false, probes.1).onGce == (if headerFirst then header else ip)
  {
  }

  /** The same two probe results, arriving in the opposite order, give opposite answers. */
  lemma ArrivalOrderMatters()
    ensures var headerFirst := Arrival(true, false, true);
      var ipFirst := Arrival(true, false, false);
      TestOnGce(None, headerFirst.0, false, headerFirst.1).onGce
      && !TestOnGce(None, ipFirst.0, false, ipFirst.1).onGce
  {
    FirstArrivalDecidesElsewhere(true, false, true);
    FirstArrivalDecidesElsewhere(true, false, false);
  }

  /** A second result that does not arrive in time counts as false. */
  lemma LateSecondCountsAsFalse(first: Option<bool>, dmi: bool)
    ensures TestOnGce(None, first, dmi, None).onGce == (first == Some(true))
  {
  }

  /**
   * The whole decision over the raw probe inputs: the header probe's reply,
   * the resolved addresses, which probe answers first, whether the second
   * answers within five seconds, and the platform and product file. It says
   * "on GCE" only on evidence, and always when the first probe to answer is
   * positive.
   */
  function ProbeOnGce(hostVar: Option<string>, reply: Option<seq<Header>>, resolved: Option<seq<SocketAddr>>,
                      headerFirst: bool, secondInTime: bool, linux: bool, productName: Option<string>): (d: Detection)
    ensures d.onGce ==> hostVar.Some? || HasMetaHeader(reply) || HasTargetIp(resolved)
    ensures headerFirst && HasMetaHeader(reply) ==> d.onGce
    ensures !headerFirst && HasTargetIp(resolved) ==> d.onGce
    ensures hostVar.None? && !RunningOnGce(linux, productName) ==>
      (d.onGce <==> if headerFirst then HasMetaHeader(reply) else HasTargetIp(resolved))
  {
    var probes := Arrival(HasMetaHeader(reply), HasTargetIp(resolved), headerFirst);
    TestOnGce(hostVar, probes.0, RunningOnGce(linux, productName), if secondInTime then probes.1 else None)
  }
}
