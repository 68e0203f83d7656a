/**
 * Release numbers of NimbusKit Basics and the version guard run at every inclusion.
 *
 * Releases are encoded as the integer MMmmPP, major * 10000 + minor * 100 + patch: the
 * iOS release constants NI_IOS_M_m and the library's own NIMBUSKIT_BASICS_M_m_p use it.
 * When an older copy of the header was included first, the guard emits a compile-time
 * message, unless NI_SUPPRESS_VERSION_WARNINGS is defined.
 */
module Versions {

  datatype Release = Release(major: nat, minor: nat, patch: nat)

  /** Minor and patch fit in their two decimal digits. */
  predicate WellFormed(r: Release) {
    r.minor < 100 && r.patch < 100
  }

  /** Strict lexicographic order of releases. */
  predicate Precedes(a: Release, b: Release) {
    a.major < b.major
    || (a.major == b.major && a.minor < b.minor)
    || (a.major == b.major && a.minor == b.minor && a.patch < b.patch)
  }

  /** The MMmmPP encoding. */
  function Encode(r: Release): nat {
    r.major * 10000 + r.minor * 100 + r.patch
  }

  /** Reads the three fields back out of an MMmmPP number. */
  function Decode(v: nat): (r: Release)
    ensures WellFormed(r)
  {
    Release(v / 10000, v / 100 % 100, v % 100)
  }

  /** Well-formed releases survive a round trip through the encoding. */
  lemma DecodeEncode(r: Release)
    requires WellFormed(r)
    ensures Decode(Encode(r)) == r
  {
    var v := Encode(r);
    assert r.minor * 100 + r.patch < 10000;
    QuotientOf10000(v, r.major, r.minor * 100 + r.patch);
    assert v == (r.major * 100 + r.minor) * 100 + r.patch;
    QuotientAndRemainderOf100(v, r.major * 100 + r.minor, r.patch);
    QuotientAndRemainderOf100(r.major * 100 + r.minor, r.major, r.minor);
  }

  lemma QuotientOf10000(n: nat, q: nat, rest: nat)
    requires rest < 10000 && n == q * 10000 + rest
    ensures n / 10000 == q
  {
  }

  lemma QuotientAndRemainderOf100(n: nat, q: nat, rest: nat)
    requires rest < 100 && n == q * 100 + rest
    ensures n / 100 == q && n % 100 == rest
  {
  }

  /** Every number is the encoding of exactly the release it decodes to. */
  lemma EncodeDecode(v: nat)
    ensures Encode(Decode(v)) == v
  {
  }

  /** On well-formed releases the encoding orders numbers exactly as releases are ordered. */
  lemma EncodeOrder(a: Release, b: Release)
    requires WellFormed(a) && WellFormed(b)
    ensures Encode(a) < Encode(b) <==> Precedes(a, b)
  {
  }

  /** Without the two-digit bound the encoding is ambiguous: 1.100.0 and 2.0.0 collide. */
  lemma EncodingNeedsTwoDigitFields()
    ensures Encode(Release(1, 100, 0)) == Encode(Release(2, 0, 0))
    ensures !WellFormed(Release(1, 100, 0))
  {
  }

  // NI_IOS_M_m: iOS releases.
  const IOS_2_0: nat := 20000
  const IOS_2_1: nat := 20100
  const IOS_2_2: nat := 20200
  const IOS_3_0: nat := 30000
  const IOS_3_1: nat := 30100
  const IOS_3_2: nat := 30200
  const IOS_4_0: nat := 40000
  const IOS_4_1: nat := 40100
  const IOS_4_2: nat := 40200
  const IOS_4_3: nat := 40300
  const IOS_5_0: nat := 50000
  const IOS_5_1: nat := 50100
  const IOS_6_0: nat := 60000
  const IOS_6_1: nat := 60100
  const IOS_7_0: nat := 70000

  // NIMBUSKIT_BASICS_M_m_p: releases of this library.
  const BASICS_1_0_0: nat := 10000
  const BASICS_1_1_0: nat := 10100

  /** A named constant and the release it stands for. */
  datatype NamedRelease = NamedRelease(release: Release, value: nat)

  /** The NI_IOS_* constants in release order. */
  const IosReleases: seq<NamedRelease> := [
    NamedRelease(Release(2, 0, 0), IOS_2_0),
    NamedRelease(Release(2, 1, 0), IOS_2_1),
    NamedRelease(Release(2, 2, 0), IOS_2_2),
    NamedRelease(Release(3, 0, 0), IOS_3_0),
    NamedRelease(Release(3, 1, 0), IOS_3_1),
    NamedRelease(Release(3, 2, 0), IOS_3_2),
    NamedRelease(Release(4, 0, 0), IOS_4_0),
    NamedRelease(Release(4, 1, 0), IOS_4_1),
    NamedRelease(Release(4, 2, 0), IOS_4_2),
    NamedRelease(Release(4, 3, 0), IOS_4_3),
    NamedRelease(Release(5, 0, 0), IOS_5_0),
    NamedRelease(Release(5, 1, 0), IOS_5_1),
    NamedRelease(Release(6, 0, 0), IOS_6_0),
    NamedRelease(Release(6, 1, 0), IOS_6_1),
    NamedRelease(Release(7, 0, 0), IOS_7_0)
  ]

  /** The NIMBUSKIT_BASICS_* constants in release order. */
  const BasicsReleases: seq<NamedRelease> := [
    NamedRelease(Release(1, 0, 0), BASICS_1_0_0),
    NamedRelease(Release(1, 1, 0), BASICS_1_1_0)
  ]

  /** Each constant is the MMmmPP encoding of its well-formed release, and releases are listed in order. */
  predicate IsReleaseTable(t: seq<NamedRelease>) {
    && (forall i :: 0 <= i < |t| ==> WellFormed(t[i].release) && t[i].value == Encode(t[i].release))
    && (forall i :: 0 < i < |t| ==> Precedes(t[i - 1].release, t[i].release))
  }

  predicate StrictlyIncreasing(t: seq<NamedRelease>) {
    forall i, j :: 0 <= i < j < |t| ==> t[i].value < t[j].value
  }

  /** In a release table the constants grow strictly with the releases. */
  lemma {:induction false} ReleaseTableIncreasing(t: seq<NamedRelease>)
    requires IsReleaseTable(t)
    ensures StrictlyIncreasing(t)
  {
    if |t| > 1 {
      var init := t[..|t| - 1];
      assert IsReleaseTable(init);
      ReleaseTableIncreasing(init);
      var last := |t| - 1;
      EncodeOrder(t[last - 1].release, t[last].release);
      forall i | 0 <= i < last ensures t[i].value < t[last].value {
        assert init[i] == t[i];
      }
    }
  }

  /** The NI_IOS_* constants follow MMmmPP and increase strictly in release order. */
  lemma IosReleasesOrdered()
    ensures IsReleaseTable(IosReleases) && StrictlyIncreasing(IosReleases)
    ensures IOS_2_0 == Encode(Release(2, 0, 0)) && IOS_7_0 == Encode(Release(7, 0, 0))
  {
    ReleaseTableIncreasing(IosReleases);
  }

  /** The NIMBUSKIT_BASICS_* constants follow MMmmPP and 1.0.0 comes before 1.1.0. */
  lemma BasicsReleasesOrdered()
    ensures IsReleaseTable(BasicsReleases) && StrictlyIncreasing(BasicsReleases)
    ensures BASICS_1_0_0 < BASICS_1_1_0
  {
    ReleaseTableIncreasing(BasicsReleases);
  }

  /** A preprocessor macro, as seen by `#if`: an undefined identifier evaluates to 0 there. */
  datatype Macro = Undefined | Defined(value: int)

  function IfValue(m: Macro): int {
    match m
    case Undefined => 0
    case Defined(v) => v
  }

  /** The version check: fires when the version already defined is older than 1.1.0. */
  predicate ShouldWarn(version: Macro, suppressed: bool) {
    !suppressed && IfValue(version) < BASICS_1_1_0
  }

  /** What an inclusion of the header can see and change. */
  datatype Defines = Defines(headerIncluded: bool, version: Macro, suppressWarnings: bool)

  /** The result of one inclusion: the new macro state and whether the version message is emitted. */
  datatype Inclusion = Inclusion(after: Defines, warned: bool)

  /** One inclusion of this header. The include guard skips the body (and with it the definition of
      NIMBUSKIT_BASICS_VERSION) once any copy of the header was included; the version check sits
      outside the guard and runs every time. */
  function IncludeBasics(d: Defines): (r: Inclusion)
    ensures r.after.headerIncluded && r.after.suppressWarnings == d.suppressWarnings
    ensures !d.headerIncluded && d.version.Undefined? ==> r.after.version == Defined(BASICS_1_1_0)
    ensures d.headerIncluded || d.version.Defined? ==> r.after.version == d.version
    ensures r.warned <==> !d.suppressWarnings
                          && (r.after.version.Undefined? || r.after.version.value < BASICS_1_1_0)
  {
    var version :=
      if !d.headerIncluded && d.version.Undefined? then Defined(BASICS_1_1_0) else d.version;
    Inclusion(Defines(true, version, d.suppressWarnings), ShouldWarn(version, d.suppressWarnings))
  }

  /** For a defined version that encodes a release, the check fires exactly when that release is older
      than 1.1.0; an undefined version reads as 0 and always fires unless suppressed. */
  lemma WarnsExactlyForOlderRelease(r: Release, suppressed: bool)
    requires WellFormed(r)
    ensures ShouldWarn(Defined(Encode(r)), suppressed) <==> !suppressed && Precedes(r, Release(1, 1, 0))
    ensures ShouldWarn(Undefined, suppressed) <==> !suppressed
  {
    EncodeOrder(r, Release(1, 1, 0));
  }

  /** Including this header into a unit that has none of its macros defines version 1.1.0 quietly,
      and including it again changes nothing and stays quiet. */
  lemma FirstInclusionIsQuiet(suppressed: bool)
    ensures IncludeBasics(Defines(false, Undefined, suppressed)).after.version == Defined(BASICS_1_1_0)
    ensures !IncludeBasics(Defines(false, Undefined, suppressed)).warned
    ensures var once := IncludeBasics(Defines(false, Undefined, suppressed)).after;
            IncludeBasics(once) == Inclusion(once, false)
  {
  }

  /** Including the header is idempotent on the macro state. */
  lemma IncludeBasicsIdempotent(d: Defines)
    ensures var once := IncludeBasics(d);
            IncludeBasics(once.after) == once
  {
  }

  /** A unit where an earlier copy left the version at 1.0.0 gets the message unless it is suppressed. */
  lemma OlderCopyFirstWarns(suppressed: bool)
    ensures IncludeBasics(Defines(true, Defined(BASICS_1_0_0), suppressed)).warned <==> !suppressed
  {
  }

  /** An earlier copy that set the include guard but defined no version macro: `#if` reads 0, the
      version stays undefined, and the message is emitted unless it is suppressed. */
  lemma GuardWithoutVersionWarns(suppressed: bool)
    ensures IncludeBasics(Defines(true, Undefined, suppressed)).after.version == Undefined
    ensures IncludeBasics(Defines(true, Undefined, suppressed)).warned <==> !suppressed
  {
  }
}
