/**
  `parseSemver` and `checkVersionPolicy` of scripts/sdk/surface.ts, and what the
  policy guarantees over whole release histories (docs/sdk/versioning.md).
*/
module SemverPolicy {
  import opened Wrappers
  import opened Surface
  import opened ClientCalls

  datatype Version = Version(major: nat, minor: nat, patch: nat)

  datatype Result<+T> = Ok(value: T) | InvalidSemver(text: string)

  // ---- parsing -----------------------------------------------------------------

  predicate IsDigit(c: char) {
    '0' <= c <= '9'
  }

  /** The end of the longest run of digits from i on. */
  function DigitsEnd(v: string, i: nat): (j: nat)
    requires i <= |v|
    ensures i <= j <= |v| && AllDigits(v[i..j])
    ensures j < |v| ==> !IsDigit(v[j])
    decreases |v| - i
  {
    if i < |v| && IsDigit(v[i]) then DigitsEnd(v, i + 1) else i
  }

  predicate AllDigits(s: string) {
    forall k :: 0 <= k < |s| ==> IsDigit(s[k])
  }

  function NatValue(digits: string): nat
    requires AllDigits(digits)
  {
    if digits == [] then 0
    else 10 * NatValue(digits[..|digits| - 1]) + (digits[|digits| - 1] - '0') as nat
  }

  /** /^(\d+)\.(\d+)\.(\d+)/ : three dotted runs of digits, then anything. */
  function ParseSemver(v: string): Result<Version> {
    var a := DigitsEnd(v, 0);
    if a == 0 || a == |v| || v[a] != '.' then InvalidSemver(v)
    else
      var b := DigitsEnd(v, a + 1);
      if b == a + 1 || b == |v| || v[b] != '.' then InvalidSemver(v)
      else
        var c := DigitsEnd(v, b + 1);
        if c == b + 1 then InvalidSemver(v)
        else Ok(Version(NatValue(v[0..a]), NatValue(v[a + 1..b]), NatValue(v[b + 1..c])))
  }

  function Print(n: nat): (s: string)
    ensures s != [] && AllDigits(s)
  {
    var digit := [(n % 10) as char + '0'];
    if n < 10 then digit else Print(n / 10) + digit
  }

  lemma {:induction false} PrintValue(n: nat)
    ensures NatValue(Print(n)) == n
  {
    var s := Print(n);
    if n >= 10 {
      PrintValue(n / 10);
      assert s[..|s| - 1] == Print(n / 10);
    } else {
      assert s[..0] == [];
    }
  }

  lemma {:induction false} DigitsEndAt(v: string, i: nat, j: nat)
    requires i <= j <= |v| && (forall k :: i <= k < j ==> IsDigit(v[k])) && (j < |v| ==> !IsDigit(v[j]))
    ensures DigitsEnd(v, i) == j
    decreases j - i
  {
    if i < j {
      DigitsEndAt(v, i + 1, j);
    }
  }

  /** A part of a text and the character after it. */
  lemma Middle(p: string, x: string, q: string, v: string)
    requires v == p + x + q
    ensures |p| + |x| <= |v| && v[|p|..|p| + |x|] == x
    ensures q != [] ==> |p| + |x| < |v| && v[|p| + |x|] == q[0]
    ensures |v| == |p| + |x| + |q|
  {
  }

  lemma Layout(x: string, y: string, z: string, suffix: string)
    ensures var v, a, b := x + "." + y + "." + z + suffix, |x|, |x| + 1 + |y|;
            var c := b + 1 + |z|;
            && c <= |v| && v[a] == '.' && v[b] == '.' && (c < |v| ==> v[c] == suffix[0])
            && v[..a] == x && v[a + 1..b] == y && v[b + 1..c] == z
  {
    var v := x + "." + y + "." + z + suffix;
    assert v == [] + x + ("." + y + "." + z + suffix);
    Middle([], x, "." + y + "." + z + suffix, v);
    assert v == (x + ".") + y + ("." + z + suffix);
    Middle(x + ".", y, "." + z + suffix, v);
    Middle(x + "." + y + ".", z, suffix, v);
  }

  lemma DigitsPart(v: string, i: nat, j: nat, s: string)
    requires i <= j <= |v| && v[i..j] == s && AllDigits(s) && (j < |v| ==> !IsDigit(v[j]))
    ensures DigitsEnd(v, i) == j
  {
    forall k | i <= k < j
      ensures IsDigit(v[k])
    {
      assert v[k] == s[k - i];
    }
    DigitsEndAt(v, i, j);
  }

  /** Three dotted runs of digits, leading zeros included, parse to their values, whatever
      follows the last run. */
  lemma ParseDotted(x: string, y: string, z: string, suffix: string)
    requires AllDigits(x) && AllDigits(y) && AllDigits(z) && x != [] && y != [] && z != []
    requires suffix != [] ==> !IsDigit(suffix[0])
    ensures ParseSemver(x + "." + y + "." + z + suffix) == Ok(Version(NatValue(x), NatValue(y), NatValue(z)))
  {
    hide NatValue, AllDigits, ParseSemver, DigitsEnd, IsDigit;
    var v := x + "." + y + "." + z + suffix;
    var a, b := |x|, |x| + 1 + |y|;
    var c := b + 1 + |z|;
    Layout(x, y, z, suffix);
    assert v[0..a] == x;
    DotNoDigit();
    DigitsPart(v, 0, a, x);
    DigitsPart(v, a + 1, b, y);
    DigitsPart(v, b + 1, c, z);
    ParseAt(v, a, b, c);
  }

  lemma DotNoDigit()
    ensures !IsDigit('.')
  {
  }

  lemma ParseAt(v: string, a: nat, b: nat, c: nat)
    requires 0 < a && a + 1 < b && b + 1 < c <= |v| && v[a] == '.' && v[b] == '.'
    requires DigitsEnd(v, 0) == a && DigitsEnd(v, a + 1) == b && DigitsEnd(v, b + 1) == c
    ensures AllDigits(v[..a]) && AllDigits(v[a + 1..b]) && AllDigits(v[b + 1..c])
    ensures ParseSemver(v) == Ok(Version(NatValue(v[..a]), NatValue(v[a + 1..b]), NatValue(v[b + 1..c])))
  {
    hide NatValue, DigitsEnd, AllDigits, IsDigit;
    assert v[0..a] == v[..a];
  }

  /** Nothing else parses. */
  lemma ParsedIsDotted(v: string) returns (x: string, y: string, z: string, suffix: string)
    requires ParseSemver(v).Ok?
    ensures AllDigits(x) && AllDigits(y) && AllDigits(z) && x != [] && y != [] && z != []
    ensures suffix != [] ==> !IsDigit(suffix[0])
    ensures v == x + "." + y + "." + z + suffix
    ensures ParseSemver(v).value == Version(NatValue(x), NatValue(y), NatValue(z))
  {
    hide NatValue;
    var a := DigitsEnd(v, 0);
    var b := DigitsEnd(v, a + 1);
    var c := DigitsEnd(v, b + 1);
    ParseAt(v, a, b, c);
    x, y, z, suffix := v[..a], v[a + 1..b], v[b + 1..c], v[c..];
    Dotted(v, a, b, c);
  }

  lemma Dotted(v: string, a: nat, b: nat, c: nat)
    requires a < b < c <= |v| && v[a] == '.' && v[b] == '.'
    ensures v == v[..a] + "." + v[a + 1..b] + "." + v[b + 1..c] + v[c..]
  {
  }

  /** The values are decimal. */
  lemma Decimal(digits: string, d: char)
    requires AllDigits(digits) && IsDigit(d)
    ensures AllDigits(digits + [d]) && NatValue(digits + [d]) == 10 * NatValue(digits) + (d - '0') as nat
    ensures NatValue("") == 0
  {
    assert (digits + [d])[..|digits|] == digits;
  }

  /** Every printed version parses to its numbers. */
  lemma ParsePrinted(n: Version, suffix: string)
    requires suffix != [] ==> !IsDigit(suffix[0])
    ensures ParseSemver(Print(n.major) + "." + Print(n.minor) + "." + Print(n.patch) + suffix) == Ok(n)
  {
    hide Print, NatValue, ParseSemver;
    ParseDotted(Print(n.major), Print(n.minor), Print(n.patch), suffix);
    PrintValue(n.major);
    PrintValue(n.minor);
    PrintValue(n.patch);
  }

  // ---- the policy --------------------------------------------------------------

  datatype Violation = WentBackwards | NeedsMajorBump | NeedsMinorBump

  /** Lexicographic order. */
  predicate AtMost(a: Version, b: Version) {
    a.major < b.major
    || (a.major == b.major && (a.minor < b.minor || (a.minor == b.minor && a.patch <= b.patch)))
  }

  /** It is a total order in which the major version counts first, then the minor, then the patch. */
  lemma VersionOrder(a: Version, b: Version, c: Version)
    ensures a.major < b.major ==> AtMost(a, b) && !AtMost(b, a)
    ensures a.major == b.major && a.minor < b.minor ==> AtMost(a, b) && !AtMost(b, a)
    ensures a.major == b.major && a.minor == b.minor && a.patch < b.patch ==> AtMost(a, b) && !AtMost(b, a)
    ensures AtMost(a, a) && (AtMost(a, b) && AtMost(b, c) ==> AtMost(a, c))
  {
  }

  /** Breaking changes need a new major version, additions at least a new minor one. */
  ghost predicate FollowsPolicy(diff: SurfaceDiff, b: Version, n: Version) {
    && AtMost(b, n)
    && (diff.breaking != [] ==> b.major < n.major)
    && (diff.additive != [] ==> b.major < n.major || b.minor < n.minor)
  }

  method CheckVersionPolicy(diff: SurfaceDiff, baseVersion: string, nextVersion: string)
    returns (r: Result<seq<Violation>>)
    ensures r.InvalidSemver? <==> ParseSemver(baseVersion).InvalidSemver? || ParseSemver(nextVersion).InvalidSemver?
    ensures r.Ok? ==>
      var b, n := ParseSemver(baseVersion).value, ParseSemver(nextVersion).value;
      && (WentBackwards in r.value <==> !AtMost(b, n))
      && (NeedsMajorBump in r.value <==> diff.breaking != [] && n.major <= b.major)
      && (NeedsMinorBump in r.value <==>
          diff.breaking == [] && diff.additive != [] && n.major == b.major && n.minor <= b.minor)
      && (r.value == [] <==> FollowsPolicy(diff, b, n))
  {
    hide ParseSemver;
    var parsedBase := ParseSemver(baseVersion);
    if parsedBase.InvalidSemver? {
      return InvalidSemver(baseVersion);
    }
    var parsedNext := ParseSemver(nextVersion);
    if parsedNext.InvalidSemver? {
      return InvalidSemver(nextVersion);
    }
    var b, n := parsedBase.value, parsedNext.value;
    var violations := [];
    var cmp := if n.major - b.major != 0 then n.major - b.major
               else if n.minor - b.minor != 0 then n.minor - b.minor
               else n.patch - b.patch;
    if cmp < 0 {
      violations := violations + [WentBackwards];
    }
    if |diff.breaking| > 0 && n.major <= b.major {
      violations := violations + [NeedsMajorBump];
    }
    if |diff.breaking| == 0 && |diff.additive| > 0 && n.major == b.major && n.minor <= b.minor {
      violations := violations + [NeedsMinorBump];
    }
    r := Ok(violations);
  }

  predicate SameMinor(a: Version, b: Version) {
    a.major == b.major && a.minor == b.minor
  }

  // ---- histories ---------------------------------------------------------------

  datatype Release = Release(surface: ApiSurface, version: Version)

  ghost predicate DiffOf(base: ApiSurface, next: ApiSurface, diff: SurfaceDiff) {
    && (forall c :: c in diff.breaking <==> IsBreaking(base, next, c))
    && (forall c :: c in diff.additive <==> IsAdditive(base, next, c))
  }

  /** The gate passed between two consecutive releases. */
  ghost predicate Gated(base: Release, next: Release) {
    exists diff :: DiffOf(base.surface, next.surface, diff) && FollowsPolicy(diff, base.version, next.version)
  }

  ghost predicate History(releases: seq<Release>) {
    forall i :: 0 <= i < |releases| - 1 ==> Gated(releases[i], releases[i + 1])
  }

  /** The two surfaces offer the same operations with the same parameters. */
  ghost predicate SameShape(s: ApiSurface, t: ApiSurface) {
    && s.entries.Keys == t.entries.Keys
    && forall id :: id in s.entries && id in t.entries ==>
      s.entries[id].params.entries.Keys == t.entries[id].params.entries.Keys
  }

  /** No operation of both is deprecated in the second only. */
  ghost predicate NoneDeprecated(s: ApiSurface, t: ApiSurface) {
    forall id :: id in s.entries && id in t.entries && t.entries[id].deprecated ==> s.entries[id].deprecated
  }

  lemma CompatibleSelf(s: ApiSurface)
    ensures Compatible(s, s)
  {
  }

  lemma ParamCompatibleTrans(p: Param, q: Param, r: Param)
    requires ParamCompatible(p, q) && ParamCompatible(q, r)
    ensures ParamCompatible(p, r)
  {
  }

  lemma OperationCompatibleTrans(a: Operation, b: Operation, c: Operation)
    requires OperationCompatible(a, b) && OperationCompatible(b, c)
    ensures OperationCompatible(a, c)
  {
    hide ParamCompatible;
    forall k | k in a.params.entries
      ensures k in c.params.entries && ParamCompatible(a.params.entries[k], c.params.entries[k])
    {
      ParamCompatibleTrans(a.params.entries[k], b.params.entries[k], c.params.entries[k]);
    }
    forall k | k in c.params.entries && k !in a.params.entries
      ensures !c.params.entries[k].required
    {
      OptionalStaysOptional(b, c, k);
    }
  }

  lemma OptionalStaysOptional(b: Operation, c: Operation, k: string)
    requires OperationCompatible(b, c) && k in c.params.entries
    requires k in b.params.entries ==> !b.params.entries[k].required
    ensures !c.params.entries[k].required
  {
    if k in b.params.entries {
      assert ParamCompatible(b.params.entries[k], c.params.entries[k]);
    }
  }

  lemma CompatibleTrans(s: ApiSurface, t: ApiSurface, u: ApiSurface)
    requires Compatible(s, t) && Compatible(t, u)
    ensures Compatible(s, u)
  {
    hide OperationCompatible;
    forall id | id in s.entries
      ensures id in u.entries && OperationCompatible(s.entries[id], u.entries[id])
    {
      OperationCompatibleTrans(s.entries[id], t.entries[id], u.entries[id]);
    }
  }

  lemma GatedStep(base: Release, next: Release)
    requires Gated(base, next)
    ensures AtMost(base.version, next.version)
    ensures base.version.major == next.version.major ==> Compatible(base.surface, next.surface)
    ensures SameMinor(base.version, next.version) ==>
      SameShape(base.surface, next.surface) && NoneDeprecated(base.surface, next.surface)
  {
    hide IsBreaking, IsAdditive, Compatible, SameShape, NoneDeprecated;
    var diff :| DiffOf(base.surface, next.surface, diff) && FollowsPolicy(diff, base.version, next.version);
    CompatibleIff(base.surface, next.surface);
    if base.version.major == next.version.major {
      assert diff.breaking == [];
      assert forall c :: !IsBreaking(base.surface, next.surface, c);
      if base.version.minor == next.version.minor {
        assert diff.additive == [];
        assert forall c :: !IsAdditive(base.surface, next.surface, c);
        NothingAdded(base.surface, next.surface);
      }
    }
  }

  lemma AddedOperationAdds(base: ApiSurface, next: ApiSurface, id: string)
    requires id in next.entries && id !in base.entries
    ensures IsAdditive(base, next, AddedOperation(id))
  {
    assert AddsAt(base, next, id, AddedOperation(id));
  }

  lemma OptionalParameterAdds(base: ApiSurface, next: ApiSurface, id: string, k: string)
    requires id in next.entries && id in base.entries
    requires k in next.entries[id].params.entries && k !in base.entries[id].params.entries
    requires !next.entries[id].params.entries[k].required
    ensures IsAdditive(base, next, NewOptionalParameter(id, k))
  {
    assert NewParamAdds(id, base.entries[id], next.entries[id], k, NewOptionalParameter(id, k));
    assert AddsAt(base, next, id, NewOptionalParameter(id, k));
  }

  lemma DeprecationAdds(base: ApiSurface, next: ApiSurface, id: string)
    requires id in next.entries && id in base.entries
    requires next.entries[id].deprecated && !base.entries[id].deprecated
    ensures IsAdditive(base, next, Deprecated(id))
  {
    assert OperationAdds(id, base.entries[id], next.entries[id], Deprecated(id));
    assert AddsAt(base, next, id, Deprecated(id));
  }

  /** Between compatible surfaces the diff reports an addition iff there is one: an operation or a
      parameter that was not there, or an operation newly deprecated. */
  lemma AdditiveExactly(base: ApiSurface, next: ApiSurface)
    requires Compatible(base, next)
    ensures (forall c :: !IsAdditive(base, next, c)) <==> SameShape(base, next) && NoneDeprecated(base, next)
  {
    hide IsAdditive, Compatible;
    if forall c :: !IsAdditive(base, next, c) {
      NothingAdded(base, next);
    }
    if SameShape(base, next) && NoneDeprecated(base, next) {
      forall c
        ensures !IsAdditive(base, next, c)
      {
        SameAddsNothing(base, next, c);
      }
    }
  }

  lemma SameAddsNothing(base: ApiSurface, next: ApiSurface, c: Additive)
    requires SameShape(base, next) && NoneDeprecated(base, next)
    ensures !IsAdditive(base, next, c)
  {
  }

  lemma NothingAdded(base: ApiSurface, next: ApiSurface)
    requires Compatible(base, next) && forall c :: !IsAdditive(base, next, c)
    ensures SameShape(base, next) && NoneDeprecated(base, next)
  {
    hide IsAdditive;
    forall id | id in base.entries && id in next.entries && next.entries[id].deprecated
      ensures base.entries[id].deprecated
    {
      if !base.entries[id].deprecated {
        DeprecationAdds(base, next, id);
      }
    }
    forall id | id in next.entries
      ensures id in base.entries
    {
      if id !in base.entries {
        AddedOperationAdds(base, next, id);
      }
    }
    forall id, k | id in base.entries && k in next.entries[id].params.entries
      ensures k in base.entries[id].params.entries
    {
      assert OperationCompatible(base.entries[id], next.entries[id]);
      if k !in base.entries[id].params.entries {
        OptionalParameterAdds(base, next, id, k);
      }
    }
    forall id | id in base.entries
      ensures base.entries[id].params.entries.Keys == next.entries[id].params.entries.Keys
    {
      assert OperationCompatible(base.entries[id], next.entries[id]);
    }
  }

  /** Versions never go backwards, however far apart two releases are. */
  lemma {:induction false} HistoryMonotone(releases: seq<Release>, i: nat, j: nat)
    requires History(releases) && i <= j < |releases|
    ensures AtMost(releases[i].version, releases[j].version)
    decreases j
  {
    if i < j {
      HistoryMonotone(releases, i, j - 1);
      assert Gated(releases[j - 1], releases[j - 1 + 1]);
      GatedStep(releases[j - 1], releases[j]);
    }
  }

  /** Within a major version every later release is compatible with every earlier
      one; within a minor version it even has the same operations and parameters. */
  lemma {:induction false} HistoryCompatible(releases: seq<Release>, i: nat, j: nat)
    requires History(releases) && i <= j < |releases|
    ensures releases[i].version.major == releases[j].version.major ==>
      Compatible(releases[i].surface, releases[j].surface)
    ensures SameMinor(releases[i].version, releases[j].version) ==>
      SameShape(releases[i].surface, releases[j].surface) && NoneDeprecated(releases[i].surface, releases[j].surface)
    decreases j
  {
    if i == j {
      CompatibleSelf(releases[i].surface);
    } else {
      hide Compatible;
      assert Gated(releases[j - 1], releases[j - 1 + 1]);
      GatedStep(releases[j - 1], releases[j]);
      HistoryMonotone(releases, i, j - 1);
      HistoryCompatible(releases, i, j - 1);
      if releases[i].version.major == releases[j].version.major {
        CompatibleTrans(releases[i].surface, releases[j - 1].surface, releases[j].surface);
      }
    }
  }

  /** "Within a major, every call an older SDK can make still exists." */
  lemma OldClientsKeepWorking(hasType: Typing, releases: seq<Release>, i: nat, j: nat, c: Call)
    requires History(releases) && i <= j < |releases|
    requires releases[i].version.major == releases[j].version.major
    requires ValidCall(hasType, releases[i].surface, c)
    ensures NoBreaking(releases[i].surface, releases[j].surface)
    ensures ValidCall(hasType, releases[j].surface, c)
  {
    HistoryCompatible(releases, i, j);
    CompatibleIff(releases[i].surface, releases[j].surface);
    CompatibleKeepsCalls(hasType, releases[i].surface, releases[j].surface, c);
  }

  lemma GatedByAnyDiff(base: Release, next: Release, diff: SurfaceDiff)
    requires DiffOf(base.surface, next.surface, diff)
    ensures Gated(base, next) <==> FollowsPolicy(diff, base.version, next.version)
  {
    hide IsBreaking, IsAdditive;
    if other :| DiffOf(base.surface, next.surface, other) && FollowsPolicy(other, base.version, next.version) {
      SameEmptiness(diff.breaking, other.breaking);
      SameEmptiness(diff.additive, other.additive);
    }
  }

  lemma SameEmptiness<T>(a: seq<T>, b: seq<T>)
    requires forall x :: x in a <==> x in b
    ensures a == [] <==> b == []
  {
    assert a != [] ==> a[0] in a;
    assert b != [] ==> b[0] in b;
  }

  /** The versions of one package at the base and now; None where its file is missing. */
  datatype Source = Source(before: Option<string>, now: Option<string>)

  /** The package passes, or has no pair of versions to compare. */
  ghost predicate PassesGate(base: ApiSurface, next: ApiSurface, src: Source) {
    src.before.Some? && src.now.Some? ==>
      var b, n := ParseSemver(src.before.value), ParseSemver(src.now.value);
      b.Ok? && n.Ok? && Gated(Release(base, b.value), Release(next, n.value))
  }

  /** The script passes exactly if there is no earlier surface or every package passes. */
  method Gate(base: Option<ApiSurface>, next: ApiSurface, sources: seq<Source>) returns (passes: bool)
    requires ValidSurface(next) && (base.Some? ==> ValidSurface(base.value))
    ensures passes <==> base.None? || forall i :: 0 <= i < |sources| ==> PassesGate(base.value, next, sources[i])
  {
    hide PassesGate, IsBreaking, IsAdditive;
    if base.None? {
      return true;
    }
    var diff := DiffSurfaces(base.value, next);
    passes := true;
    for i := 0 to |sources|
      invariant passes <==> forall j :: 0 <= j < i ==> PassesGate(base.value, next, sources[j])
    {
      var ok := GateSource(base.value, next, diff, sources[i]);
      passes := passes && ok;
    }
  }

  /** One turn of the script's loop; an unreadable version throws and so fails the script. */
  method GateSource(ghost base: ApiSurface, ghost next: ApiSurface, diff: SurfaceDiff, src: Source)
    returns (passes: bool)
    requires DiffOf(base, next, diff)
    ensures passes <==> PassesGate(base, next, src)
  {
    hide ParseSemver, IsBreaking, IsAdditive, Gated;
    if src.before.None? || src.now.None? {
      return true;
    }
    var r := CheckVersionPolicy(diff, src.before.value, src.now.value);
    passes := r == Ok([]);
    if r.Ok? {
      var b, n := ParseSemver(src.before.value).value, ParseSemver(src.now.value).value;
      GatedByAnyDiff(Release(base, b), Release(next, n), diff);
    }
  }
}
