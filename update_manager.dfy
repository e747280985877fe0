/**
 * The update check: numeric comparison of dotted versions, and the choice of version and
 * download URL from the update manifest. Fetching the manifest is an input.
 */
module UpdateManager {
  import opened Wrappers
  import opened JsValues

  // ---- parseInt(s, 10) ----

  /** The characters `parseInt` skips before a number: ECMAScript white space and line terminators. */
  predicate IsJsSpace(c: char) {
    c == ' ' || c == '\t' || c == '\n' || c == '\r' || c == '\U{000B}' || c == '\U{000C}'
    || c == '\U{00A0}' || c == '\U{1680}' || ('\U{2000}' <= c <= '\U{200A}')
    || c == '\U{2028}' || c == '\U{2029}' || c == '\U{202F}' || c == '\U{205F}'
    || c == '\U{3000}' || c == '\U{FEFF}'
  }

  /** The string without its leading white space, as `parseInt` skips it. */
  function TrimStart(s: string): (t: string)
    ensures t == [] || !IsJsSpace(t[0])
    ensures EndsWith(s, t) && forall i :: 0 <= i < |s| - |t| ==> IsJsSpace(s[i])
    decreases |s|
  {
    if s != [] && IsJsSpace(s[0]) then TrimStart(s[1..]) else s
  }

  /** The longest prefix of decimal digits. */
  function DigitPrefix(s: string): (d: string)
    ensures |d| <= |s| && d == s[..|d|]
    ensures forall i :: 0 <= i < |d| ==> IsDigit(d[i])
    ensures |d| < |s| ==> !IsDigit(s[|d|])
    decreases |s|
  {
    if s != [] && IsDigit(s[0]) then [s[0]] + DigitPrefix(s[1..]) else []
  }

  /** The number a string of decimal digits denotes. */
  function DigitsValue(d: string): nat
    requires forall i :: 0 <= i < |d| ==> IsDigit(d[i])
    decreases |d|
  {
    if d == [] then 0
    else
      assert IsDigit(d[|d| - 1]);
      DigitsValue(d[..|d| - 1]) * 10 + (d[|d| - 1] as int - '0' as int)
  }

  /** `parseInt(s, 10)`; None stands for NaN. */
  function ParseInt(s: string): (r: Option<int>)
    ensures r.Some? ==> exists i :: 0 <= i < |s| && IsDigit(s[i])
    ensures s != [] && (forall i :: 0 <= i < |s| ==> IsDigit(s[i])) ==> r == Some(DigitsValue(s))
  {
    var t := TrimStart(s);
    var negative := t != [] && t[0] == '-';
    var body := if t != [] && (t[0] == '-' || t[0] == '+') then t[1..] else t;
    var digits := DigitPrefix(body);
    var magnitude: int := if digits == [] then 0 else DigitsValue(digits);
    if digits == [] then None
    else
      assert s[|s| - |body|] == body[0] && IsDigit(body[0]);
      if s != [] && forall i :: 0 <= i < |s| ==> IsDigit(s[i]) then
        assert t == s && body == s;
        DigitPrefixStops(s, []);
        assert s + [] == s;
        if negative then Some(-magnitude) else Some(magnitude)
      else if negative then Some(-magnitude)
      else Some(magnitude)
  }

  lemma {:induction false} DigitsOfNatToString(n: nat)
    ensures DigitsValue(NatToString(n)) == n
    decreases n
  {
    if n >= 10 {
      DigitsOfNatToString(n / 10);
      var s := NatToString(n);
      assert s[..|s| - 1] == NatToString(n / 10);
    }
  }

  lemma {:induction false} DigitPrefixStops(d: string, rest: string)
    requires forall i :: 0 <= i < |d| ==> IsDigit(d[i])
    requires rest == [] || !IsDigit(rest[0])
    ensures DigitPrefix(d + rest) == d
    decreases |d|
  {
    if d != [] {
      DigitPrefixStops(d[1..], rest);
      assert (d + rest)[1..] == d[1..] + rest;
      assert [d[0]] + d[1..] == d;
    }
  }

  /**
   * `parseInt` reads back a rendered natural number, whatever non-digit text follows it
   * (so "1x" parses as 1).
   */
  lemma ParseIntReadsPrefix(n: nat, rest: string)
    requires rest == [] || !IsDigit(rest[0])
    ensures ParseInt(NatToString(n) + rest) == Some(n)
  {
    var s := NatToString(n) + rest;
    assert s[0] == NatToString(n)[0];
    assert TrimStart(s) == s;
    DigitPrefixStops(NatToString(n), rest);
    DigitsOfNatToString(n);
  }

  // ---- compareVersions ----

  /** `a.split('.').map((n) => parseInt(n, 10))`. */
  function Components(v: string): (pa: seq<Option<int>>)
    ensures |pa| == |Split(v, '.')| && forall i :: 0 <= i < |pa| ==> pa[i] == ParseInt(Split(v, '.')[i])
  {
    var parts := Split(v, '.');
    seq(|parts|, i requires 0 <= i < |parts| => ParseInt(parts[i]))
  }

  /** `pa[i] || 0`: a missing or unparsable component counts as 0. */
  function At(pa: seq<Option<int>>, i: nat): int {
    if i < |pa| then pa[i].GetOr(0) else 0
  }

  function Max(a: nat, b: nat): nat {
    if a < b then b else a
  }

  /** Lexicographic comparison of components i..n-1. */
  function CompareFrom(pa: seq<Option<int>>, pb: seq<Option<int>>, i: nat, n: nat): (r: int)
    ensures -1 <= r <= 1
    decreases n - i
  {
    if i >= n then 0
    else if At(pa, i) > At(pb, i) then 1
    else if At(pa, i) < At(pb, i) then -1
    else CompareFrom(pa, pb, i + 1, n)
  }

  function Compare(pa: seq<Option<int>>, pb: seq<Option<int>>): int {
    CompareFrom(pa, pb, 0, Max(|pa|, |pb|))
  }

  /** The order `compareVersions` computes. */
  function VersionCompare(a: string, b: string): int {
    Compare(Components(a), Components(b))
  }

  /** `compareVersions(a, b)`: 1, 0 or -1 as `a` is newer than, equal to or older than `b`. */
  method CompareVersions(a: string, b: string) returns (r: int)
    ensures r == VersionCompare(a, b)
    ensures r == -1 || r == 0 || r == 1
  {
    var pa := Components(a);
    var pb := Components(b);
    var n := Max(|pa|, |pb|);
    var i := 0;
    while i < n
      invariant 0 <= i <= n
      invariant Compare(pa, pb) == CompareFrom(pa, pb, i, n)
    {
      var na := At(pa, i);
      var nb := At(pb, i);
      if na > nb {
        return 1;
      }
      if na < nb {
        return -1;
      }
      i := i + 1;
    }
    return 0;
  }

  /** Beyond both lists every component is 0, so any bound past them gives the same answer. */
  lemma {:induction false} BoundIrrelevant(pa: seq<Option<int>>, pb: seq<Option<int>>, i: nat, n: nat)
    requires n >= Max(|pa|, |pb|)
    ensures CompareFrom(pa, pb, i, n) == CompareFrom(pa, pb, i, Max(|pa|, |pb|))
    decreases n - i
  {
    if i < n {
      BoundIrrelevant(pa, pb, i + 1, n);
    }
  }

  lemma {:induction false} ReflexiveFrom(pa: seq<Option<int>>, i: nat, n: nat)
    ensures CompareFrom(pa, pa, i, n) == 0
    decreases n - i
  {
    if i < n {
      ReflexiveFrom(pa, i + 1, n);
    }
  }

  /** Every version equals itself. */
  lemma Reflexive(a: string)
    ensures VersionCompare(a, a) == 0
  {
    ReflexiveFrom(Components(a), 0, |Components(a)|);
  }

  lemma {:induction false} AntisymmetricFrom(pa: seq<Option<int>>, pb: seq<Option<int>>, i: nat, n: nat)
    ensures CompareFrom(pa, pb, i, n) == -CompareFrom(pb, pa, i, n)
    decreases n - i
  {
    if i < n {
      AntisymmetricFrom(pa, pb, i + 1, n);
    }
  }

  /** Swapping the arguments negates the answer. */
  lemma Antisymmetric(a: string, b: string)
    ensures VersionCompare(a, b) == -VersionCompare(b, a)
  {
    var pa, pb := Components(a), Components(b);
    assert Max(|pa|, |pb|) == Max(|pb|, |pa|);
    AntisymmetricFrom(pa, pb, 0, Max(|pa|, |pb|));
  }

  lemma {:induction false} TransitiveFrom(pa: seq<Option<int>>, pb: seq<Option<int>>, pc: seq<Option<int>>, i: nat, n: nat)
    requires CompareFrom(pa, pb, i, n) <= 0 && CompareFrom(pb, pc, i, n) <= 0
    ensures CompareFrom(pa, pc, i, n) <= 0
    decreases n - i
  {
    if i < n && At(pa, i) == At(pb, i) && At(pb, i) == At(pc, i) {
      TransitiveFrom(pa, pb, pc, i + 1, n);
    }
  }

  /** "not newer than" is transitive, so the comparison is a total preorder on version strings. */
  lemma Transitive(a: string, b: string, c: string)
    requires VersionCompare(a, b) <= 0 && VersionCompare(b, c) <= 0
    ensures VersionCompare(a, c) <= 0
  {
    var pa, pb, pc := Components(a), Components(b), Components(c);
    var n := Max(Max(|pa|, |pb|), |pc|);
    BoundIrrelevant(pa, pb, 0, n);
    BoundIrrelevant(pb, pc, 0, n);
    BoundIrrelevant(pa, pc, 0, n);
    TransitiveFrom(pa, pb, pc, 0, n);
  }

  lemma {:induction false} FirstDifferenceFrom(pa: seq<Option<int>>, pb: seq<Option<int>>, i: nat, k: nat, n: nat)
    requires i <= k < n
    requires forall j :: i <= j < k ==> At(pa, j) == At(pb, j)
    requires At(pa, k) != At(pb, k)
    ensures CompareFrom(pa, pb, i, n) == if At(pa, k) > At(pb, k) then 1 else -1
    decreases k - i
  {
    if i < k {
      FirstDifferenceFrom(pa, pb, i + 1, k, n);
    }
  }

  lemma {:induction false} EqualComponentsFrom(pa: seq<Option<int>>, pb: seq<Option<int>>, i: nat, n: nat)
    requires forall j :: i <= j < n ==> At(pa, j) == At(pb, j)
    ensures CompareFrom(pa, pb, i, n) == 0
    decreases n - i
  {
    if i < n {
      EqualComponentsFrom(pa, pb, i + 1, n);
    }
  }

  lemma {:induction false} ZeroMeansEqualFrom(pa: seq<Option<int>>, pb: seq<Option<int>>, i: nat, n: nat)
    requires CompareFrom(pa, pb, i, n) == 0
    ensures forall j :: i <= j < n ==> At(pa, j) == At(pb, j)
    decreases n - i
  {
    if i < n {
      ZeroMeansEqualFrom(pa, pb, i + 1, n);
    }
  }

  /**
   * Two versions compare equal exactly when they agree on every component, a missing or
   * unparsable component counting as 0.
   */
  lemma EqualIffSameComponents(a: string, b: string)
    ensures VersionCompare(a, b) == 0 <==>
      forall j: nat :: At(Components(a), j) == At(Components(b), j)
  {
    var pa, pb := Components(a), Components(b);
    var n := Max(|pa|, |pb|);
    if VersionCompare(a, b) == 0 {
      ZeroMeansEqualFrom(pa, pb, 0, n);
    }
    if forall j: nat :: At(pa, j) == At(pb, j) {
      EqualComponentsFrom(pa, pb, 0, n);
    }
  }

  /** The first component where two versions differ decides which is newer. */
  lemma FirstDifferenceDecides(a: string, b: string, k: nat)
    requires forall j :: 0 <= j < k ==> At(Components(a), j) == At(Components(b), j)
    requires At(Components(a), k) != At(Components(b), k)
    ensures VersionCompare(a, b) == if At(Components(a), k) > At(Components(b), k) then 1 else -1
  {
    var pa, pb := Components(a), Components(b);
    FirstDifferenceFrom(pa, pb, 0, k, Max(|pa|, |pb|));
  }

  lemma ParseIntOfNat(n: nat)
    ensures ParseInt(NatToString(n)) == Some(n)
  {
    ParseIntReadsPrefix(n, "");
    assert NatToString(n) + "" == NatToString(n);
  }

  /** Appending a dot-free part appends its parse to the components. */
  lemma ComponentsAppend(p: string, s: string)
    requires '.' !in s
    ensures Components(p + ['.'] + s) == Components(p) + [ParseInt(s)]
  {
    SplitConcat(p, '.', s);
    SplitWithoutSeparator(s, '.');
    var pa, pb := Components(p + ['.'] + s), Components(p) + [ParseInt(s)];
    assert |pa| == |pb|;
    forall i | 0 <= i < |pa|
      ensures pa[i] == pb[i]
    {
      if i < |Components(p)| {
        assert Split(p + ['.'] + s, '.')[i] == Split(p, '.')[i];
      } else {
        assert Split(p + ['.'] + s, '.')[i] == s;
      }
    }
  }

  lemma NoDotInNumber(n: nat)
    ensures '.' !in NatToString(n)
  {
    var s := NatToString(n);
    assert forall i :: 0 <= i < |s| ==> s[i] != '.';
  }

  /** Missing components count as 0: any version equals itself with ".0" appended. */
  lemma TrailingZeroIgnored(v: string)
    ensures VersionCompare(v, v + ".0") == 0
  {
    assert v + ".0" == v + ['.'] + NatToString(0);
    NoDotInNumber(0);
    ComponentsAppend(v, NatToString(0));
    ParseIntOfNat(0);
    var pa, pb := Components(v), Components(v + ".0");
    assert forall j :: 0 <= j < |pb| ==> At(pa, j) == At(pb, j);
    EqualComponentsFrom(pa, pb, 0, Max(|pa|, |pb|));
  }

  /**
   * Components compare as numbers, not as text: after a common prefix, the larger last number
   * is the newer version ("1.10" is newer than "1.9").
   */
  lemma NumericNotLexical(p: string, y: nat, z: nat)
    requires y > z
    ensures VersionCompare(p + ['.'] + NatToString(y), p + ['.'] + NatToString(z)) == 1
  {
    NoDotInNumber(y);
    NoDotInNumber(z);
    ComponentsAppend(p, NatToString(y));
    ComponentsAppend(p, NatToString(z));
    ParseIntOfNat(y);
    ParseIntOfNat(z);
    var pa, pb := Components(p + ['.'] + NatToString(y)), Components(p + ['.'] + NatToString(z));
    var k := |Components(p)|;
    assert At(pa, k) == y && At(pb, k) == z;
    FirstDifferenceFrom(pa, pb, 0, k, Max(|pa|, |pb|));
  }

  /** An unparsable component is NaN, which counts as 0: "1.x" equals "1.0". */
  lemma UnparsableCountsAsZero(p: string, junk: string)
    requires '.' !in junk && ParseInt(junk) == None
    ensures VersionCompare(p + ['.'] + junk, p + ".0") == 0
  {
    assert p + ".0" == p + ['.'] + NatToString(0);
    NoDotInNumber(0);
    ComponentsAppend(p, junk);
    ComponentsAppend(p, NatToString(0));
    ParseIntOfNat(0);
    var pa, pb := Components(p + ['.'] + junk), Components(p + ".0");
    assert forall j :: 0 <= j < |pb| ==> At(pa, j) == At(pb, j);
    EqualComponentsFrom(pa, pb, 0, Max(|pa|, |pb|));
  }

  /** "1.10" is newer than "1.9". */
  lemma TenAfterNine()
    ensures VersionCompare("1.10", "1.9") == 1
  {
    assert NatToString(9) == "9" && NatToString(10) == "10";
    assert "1.10" == "1" + ['.'] + NatToString(10) && "1.9" == "1" + ['.'] + NatToString(9);
    NumericNotLexical("1", 10, 9);
  }

  /** "1.x" equals "1.0". */
  lemma UnparsableExample()
    ensures VersionCompare("1.x", "1.0") == 0
  {
    assert "x"[0] == 'x';
    assert ParseInt("x") == None;
    assert "1.x" == "1" + ['.'] + "x";
    UnparsableCountsAsZero("1", "x");
  }

  // ---- checkForUpdate ----

  datatype UpdateInfo = UpdateInfo(
    updateAvailable: bool,
    currentVersion: string,
    latestVersion: string,
    downloadUrl: Value,
    notes: Value)

  const MISSING_FIELDS := "Update manifest missing version or url"
  /** `compareVersions` called on a version that is not a string. */
  const SPLIT_NOT_A_FUNCTION := "a.split is not a function"

  /** `manifest.version || manifest.latest || ''`. */
  function LatestVersionOf(manifest: Value): (v: Value)
    ensures v in {Field(manifest, "version"), Field(manifest, "latest"), Str("")}
    ensures Truthy(Field(manifest, "version")) ==> v == Field(manifest, "version")
    ensures Truthy(v) <==> Truthy(Field(manifest, "version")) || Truthy(Field(manifest, "latest"))
    ensures !Truthy(Field(manifest, "version")) && !Truthy(Field(manifest, "latest")) ==> v == Str("")
  {
    Or(Or(Field(manifest, "version"), Field(manifest, "latest")), Str(""))
  }

  /** `manifest.url || manifest.downloadUrl`. */
  function DownloadUrlOf(manifest: Value): (u: Value)
    ensures u == Field(manifest, "url") || u == Field(manifest, "downloadUrl")
    ensures Truthy(Field(manifest, "url")) ==> u == Field(manifest, "url")
    ensures Truthy(u) <==> Truthy(Field(manifest, "url")) || Truthy(Field(manifest, "downloadUrl"))
    ensures !Truthy(Field(manifest, "url")) ==> u == Field(manifest, "downloadUrl")
  {
    Or(Field(manifest, "url"), Field(manifest, "downloadUrl"))
  }

  /**
   * `checkForUpdate`, given the fetched manifest (or the fetch error) and the running version.
   * It fails when the fetch fails, when the manifest is null, or when either the version or the
   * URL is missing; otherwise an update is available exactly when the manifest's version is newer.
   */
  method CheckForUpdate(manifest: Result<Value, string>, currentVersion: string) returns (r: Result<UpdateInfo, string>)
    ensures manifest.Failure? ==> r == Failure(manifest.error)
    ensures manifest.Success? && (manifest.value == Undefined || manifest.value == Null) ==> r.Failure?
    ensures manifest.Success? && manifest.value != Undefined && manifest.value != Null &&
      !(Truthy(LatestVersionOf(manifest.value)) && Truthy(DownloadUrlOf(manifest.value)))
      ==> r == Failure(MISSING_FIELDS)
    ensures r.Success? <==>
      && manifest.Success? && manifest.value != Undefined && manifest.value != Null
      && Truthy(LatestVersionOf(manifest.value)) && Truthy(DownloadUrlOf(manifest.value))
      && LatestVersionOf(manifest.value).Str?
    ensures r.Success? ==>
      && r.value.latestVersion == LatestVersionOf(manifest.value).s
      && r.value.downloadUrl == DownloadUrlOf(manifest.value)
      && r.value.currentVersion == currentVersion
      && r.value.notes == Field(manifest.value, "notes")
      && (r.value.updateAvailable <==> VersionCompare(r.value.latestVersion, currentVersion) == 1)
  {
    if manifest.Failure? {
      return Failure(manifest.error);
    }
    var m := manifest.value;
    var version := Prop(m, "version");
    if version.Failure? {
      return Failure(version.error);
    }
    var latestVersion := LatestVersionOf(m);
    var downloadUrl := DownloadUrlOf(m);
    if !Truthy(latestVersion) || !Truthy(downloadUrl) {
      return Failure(MISSING_FIELDS);
    }
    if !latestVersion.Str? {
      return Failure(SPLIT_NOT_A_FUNCTION);
    }
    var order := CompareVersions(latestVersion.s, currentVersion);
    r := Success(UpdateInfo(order > 0, currentVersion, latestVersion.s, downloadUrl, Field(m, "notes")));
  }
}
