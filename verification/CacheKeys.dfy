/**
  Cache-key normalisation and assembly of src/cache.ts.
*/
module CacheKeys {

  const MAX_KEY_LENGTH: nat := 300
  const MAX_KEY_SEGMENT_LENGTH: nat := 128

  predicate IsHexDigit(c: char) {
    '0' <= c <= '9' || 'a' <= c <= 'f'
  }

  predicate IsDigest(s: string) {
    |s| == 64 && forall i :: 0 <= i < 64 ==> IsHexDigit(s[i])
  }

  function Blank(): (s: string)
    ensures IsDigest(s)
  {
    seq(64, _ => '0')
  }

  /** SHA-256 in hexadecimal is some function to 64 hexadecimal digits. */
  type Hash = h: string -> string | forall s :: IsDigest(h(s)) witness (_ => Blank())

  // ---- cleaning: strip control characters, trim, fold case -------------------------

  predicate IsControl(c: char) {
    c < ' ' || c == '\U{007F}'
  }

  function StripControlChars(s: string): string {
    if s == [] then []
    else (if IsControl(s[0]) then [] else [s[0]]) + StripControlChars(s[1..])
  }

  /** The white space that `trim` removes and that is no control character. */
  predicate IsSpace(c: char) {
    || c == ' ' || c == '\U{00A0}' || c == '\U{1680}' || '\U{2000}' <= c <= '\U{200A}'
    || c == '\U{2028}' || c == '\U{2029}' || c == '\U{202F}' || c == '\U{205F}' || c == '\U{3000}' || c == '\U{FEFF}'
  }

  function TrimStart(s: string): string {
    if s != [] && IsSpace(s[0]) then TrimStart(s[1..]) else s
  }

  function TrimEnd(s: string): string {
    if s != [] && IsSpace(s[|s| - 1]) then TrimEnd(s[..|s| - 1]) else s
  }

  function LowerChar(c: char): char {
    if 'A' <= c <= 'Z' then c + ' ' else c
  }

  function Lower(s: string): (r: string)
    ensures |r| == |s| && forall i :: 0 <= i < |s| ==> r[i] == LowerChar(s[i])
  {
    if s == [] then [] else [LowerChar(s[0])] + Lower(s[1..])
  }

  function Clean(s: string): string {
    Lower(TrimEnd(TrimStart(StripControlChars(s))))
  }

  /** What cleaning leaves alone. */
  predicate IsClean(s: string) {
    && (forall i :: 0 <= i < |s| ==> !IsControl(s[i]) && LowerChar(s[i]) == s[i])
    && (s != [] ==> !IsSpace(s[0]) && !IsSpace(s[|s| - 1]))
  }

  lemma {:induction false} StripLeavesNoControl(s: string)
    ensures forall i :: 0 <= i < |StripControlChars(s)| ==> !IsControl(StripControlChars(s)[i])
  {
    if s != [] {
      StripLeavesNoControl(s[1..]);
    }
  }

  lemma {:induction false} StripIdentity(s: string)
    requires forall i :: 0 <= i < |s| ==> !IsControl(s[i])
    ensures StripControlChars(s) == s
  {
    if s != [] {
      StripIdentity(s[1..]);
    }
  }

  lemma {:induction false} TrimStartSlice(s: string) returns (i: nat)
    ensures i <= |s| && TrimStart(s) == s[i..]
    ensures TrimStart(s) != [] ==> !IsSpace(TrimStart(s)[0])
  {
    if s != [] && IsSpace(s[0]) {
      i := TrimStartSlice(s[1..]);
      i := i + 1;
    } else {
      i := 0;
    }
  }

  lemma {:induction false} TrimEndSlice(s: string) returns (j: nat)
    ensures j <= |s| && TrimEnd(s) == s[..j]
    ensures TrimEnd(s) != [] ==> !IsSpace(TrimEnd(s)[|TrimEnd(s)| - 1])
  {
    if s != [] && IsSpace(s[|s| - 1]) {
      j := TrimEndSlice(s[..|s| - 1]);
    } else {
      j := |s|;
    }
  }

  lemma LowerKeepsClass(c: char)
    ensures LowerChar(LowerChar(c)) == LowerChar(c)
    ensures IsControl(LowerChar(c)) == IsControl(c) && IsSpace(LowerChar(c)) == IsSpace(c)
  {
  }

  lemma CleanIsClean(s: string)
    ensures IsClean(Clean(s))
  {
    hide IsControl, IsSpace, LowerChar, TrimStart, TrimEnd, StripControlChars;
    var t := StripControlChars(s);
    StripLeavesNoControl(s);
    var i := TrimStartSlice(t);
    var u := TrimStart(t);
    var j := TrimEndSlice(u);
    var w := TrimEnd(u);
    forall k | 0 <= k < |w|
      ensures !IsControl(Clean(s)[k]) && LowerChar(Clean(s)[k]) == Clean(s)[k]
    {
      assert w[k] == u[k] == t[i + k];
      LowerKeepsClass(w[k]);
    }
    if w != [] {
      assert w[0] == u[0];
      LowerKeepsClass(w[0]);
      LowerKeepsClass(w[|w| - 1]);
    }
  }

  lemma CleanIdentity(s: string)
    requires IsClean(s)
    ensures Clean(s) == s
  {
    StripIdentity(s);
    assert TrimStart(s) == s && TrimEnd(s) == s;
  }

  // ---- normalisation ---------------------------------------------------------------

  function Normalize(h: Hash, rawKey: string): string {
    var cleaned := Clean(rawKey);
    if |cleaned| <= MAX_KEY_LENGTH then cleaned
    else cleaned[..MAX_KEY_LENGTH - 40] + "~h." + h(cleaned)[..32]
  }

  lemma HexIsClean(c: char)
    requires IsHexDigit(c)
    ensures !IsControl(c) && !IsSpace(c) && LowerChar(c) == c
  {
  }

  lemma MarkerIsClean()
    ensures forall i :: 0 <= i < 3 ==> !IsControl("~h."[i]) && LowerChar("~h."[i]) == "~h."[i]
  {
  }

  lemma TruncatedIsClean(h: Hash, cleaned: string)
    requires IsClean(cleaned) && |cleaned| > MAX_KEY_LENGTH
    ensures IsClean(cleaned[..260] + "~h." + h(cleaned)[..32])
  {
    hide IsControl, IsSpace, LowerChar, IsHexDigit;
    var a, d := cleaned[..260], h(cleaned)[..32];
    var r := a + "~h." + d;
    MarkerIsClean();
    forall i | 0 <= i < |r|
      ensures !IsControl(r[i]) && LowerChar(r[i]) == r[i]
    {
      if i < 260 {
        assert r[i] == cleaned[i];
      } else if i < 263 {
        assert r[i] == "~h."[i - 260];
      } else {
        assert r[i] == d[i - 263] == h(cleaned)[i - 263];
        HexIsClean(r[i]);
      }
    }
    assert r[0] == cleaned[0];
    assert r[|r| - 1] == h(cleaned)[31];
    HexIsClean(r[|r| - 1]);
  }

  /** Normalised keys are bounded, and normalising again changes nothing. */
  lemma NormalizeBoundedIdempotent(h: Hash, rawKey: string)
    ensures |Normalize(h, rawKey)| <= MAX_KEY_LENGTH
    ensures Normalize(h, Normalize(h, rawKey)) == Normalize(h, rawKey)
  {
    hide Clean, IsClean, IsDigest;
    var cleaned := Clean(rawKey);
    CleanIsClean(rawKey);
    assert IsDigest(h(cleaned));
    DigestLength(h(cleaned));
    if |cleaned| > MAX_KEY_LENGTH {
      TruncatedIsClean(h, cleaned);
    }
    CleanIdentity(Normalize(h, rawKey));
  }

  lemma DigestLength(s: string)
    requires IsDigest(s)
    ensures |s| == 64
  {
  }

  /** A key over the limit is served by the entry of another, short key. */
  lemma LongKeyHasAlias(h: Hash, rawKey: string)
    requires |Clean(rawKey)| > MAX_KEY_LENGTH
    ensures var alias := Normalize(h, rawKey);
            Normalize(h, alias) == Normalize(h, rawKey) && Clean(alias) != Clean(rawKey)
  {
    hide Clean, IsClean, IsDigest;
    CleanIsClean(rawKey);
    NormalizeBoundedIdempotent(h, rawKey);
    assert IsDigest(h(Clean(rawKey)));
    DigestLength(h(Clean(rawKey)));
    TruncatedIsClean(h, Clean(rawKey));
    CleanIdentity(Normalize(h, rawKey));
  }

  // ---- segments ----------------------------------------------------------------------

  /** `s.replace(/c/g, with)` */
  function Replace(s: string, c: char, with: string): string {
    if s == [] then [] else (if s[0] == c then with else [s[0]]) + Replace(s[1..], c, with)
  }

  function Escape(s: string): string {
    Replace(Replace(s, '%', "%25"), ':', "%3a")
  }

  function EscapeChar(c: char): string {
    if c == '%' then "%25" else if c == ':' then "%3a" else [c]
  }

  lemma AppendAssoc(a: string, b: string, c: string)
    ensures a + (b + c) == (a + b) + c
  {
  }

  lemma {:induction false} ReplaceConcat(s: string, t: string, c: char, with: string)
    ensures Replace(s + t, c, with) == Replace(s, c, with) + Replace(t, c, with)
  {
    if s == [] {
      assert s + t == t;
    } else {
      var first := if s[0] == c then with else [s[0]];
      ReplaceConcat(s[1..], t, c, with);
      assert (s + t)[1..] == s[1..] + t;
      AppendAssoc(first, Replace(s[1..], c, with), Replace(t, c, with));
    }
  }

  lemma EscapeCons(s: string)
    requires s != []
    ensures Escape(s) == EscapeChar(s[0]) + Escape(s[1..])
  {
    var first := if s[0] == '%' then "%25" else [s[0]];
    ReplaceConcat(first, Replace(s[1..], '%', "%25"), ':', "%3a");
    ReplaceOne(first);
  }

  lemma ReplaceOne(first: string)
    requires |first| == 1 || first == "%25"
    ensures Replace(first, ':', "%3a") == if first == ":" then "%3a" else first
  {
    if first == "%25" {
      assert first[1..] == "25" && first[1..][1..] == "5" && first[1..][1..][1..] == "";
      assert Replace("", ':', "%3a") == "";
      assert Replace("5", ':', "%3a") == "5";
      assert Replace("25", ':', "%3a") == "25";
    } else {
      assert first == [first[0]] && first[1..] == [];
    }
  }

  /** Escaping loses nothing. */
  lemma {:induction false} EscapeInjective(a: string, b: string)
    requires Escape(a) == Escape(b)
    ensures a == b
    decreases |a|
  {
    hide Escape;
    EscapeEmpty(a);
    EscapeEmpty(b);
    if a != [] && b != [] {
      EscapeCons(a);
      EscapeCons(b);
      var x, y := EscapeChar(a[0]) + Escape(a[1..]), EscapeChar(b[0]) + Escape(b[1..]);
      assert x[0] == y[0] && (x[0] == '%' ==> x[2] == y[2]);
      assert a[0] == b[0];
      assert x[|EscapeChar(a[0])|..] == Escape(a[1..]) && y[|EscapeChar(b[0])|..] == Escape(b[1..]);
      EscapeInjective(a[1..], b[1..]);
      assert a == [a[0]] + a[1..] && b == [b[0]] + b[1..];
    }
  }

  lemma EscapeEmpty(a: string)
    ensures Escape(a) == [] <==> a == []
  {
    if a != [] {
      EscapeCons(a);
    }
  }

  function EscapeSegment(h: Hash, part: string): string {
    var escaped := Escape(Clean(part));
    if |escaped| <= MAX_KEY_SEGMENT_LENGTH then escaped else "h." + h(escaped)[..24]
  }

  predicate FitsSegment(part: string) {
    |Escape(Clean(part))| <= MAX_KEY_SEGMENT_LENGTH
  }

  /** Characters a key may hold anywhere: no control character, no upper case. */
  predicate CleanChars(s: string) {
    forall i :: 0 <= i < |s| ==> !IsControl(s[i]) && LowerChar(s[i]) == s[i]
  }

  predicate NoColon(s: string) {
    forall i :: 0 <= i < |s| ==> s[i] != ':'
  }

  predicate TrimmedEnd(s: string) {
    s != [] ==> !IsSpace(s[|s| - 1])
  }

  lemma {:induction false} EscapeShape(s: string)
    requires CleanChars(s) && TrimmedEnd(s)
    ensures CleanChars(Escape(s)) && NoColon(Escape(s)) && TrimmedEnd(Escape(s))
  {
    hide Escape, IsControl, IsSpace, LowerChar;
    EscapeEmpty(s);
    if s != [] {
      EscapeCons(s);
      EscapeCharShape(s[0]);
      EscapeEmpty(s[1..]);
      EscapeShape(s[1..]);
    }
  }

  lemma EscapeCharShape(c: char)
    requires !IsControl(c) && LowerChar(c) == c
    ensures CleanChars(EscapeChar(c)) && NoColon(EscapeChar(c))
    ensures |EscapeChar(c)| > 0 && (!IsSpace(c) ==> TrimmedEnd(EscapeChar(c)))
  {
  }

  lemma HashedShape(h: Hash, s: string)
    ensures var d := "h." + h(s)[..24];
            |d| == 26 && CleanChars(d) && NoColon(d) && TrimmedEnd(d) && Escape(d) == d && IsClean(d)
  {
    hide IsControl, IsSpace, LowerChar, IsHexDigit, Escape;
    assert IsDigest(h(s));
    var d := "h." + h(s)[..24];
    LiteralsAreClean();
    forall i | 0 <= i < 26
      ensures !IsControl(d[i]) && LowerChar(d[i]) == d[i] && !IsSpace(d[i]) && d[i] != ':' && d[i] != '%'
    {
      if i >= 2 {
        assert d[i] == h(s)[i - 2];
        HexIsClean(d[i]);
        HexIsPlain(d[i]);
      } else {
        assert d[i] == "h."[i];
      }
    }
    EscapePlain(d);
  }

  lemma LiteralsAreClean()
    ensures forall i :: 0 <= i < 2 ==>
      var c := "h."[i]; !IsControl(c) && LowerChar(c) == c && !IsSpace(c) && c != ':' && c != '%'
  {
  }

  lemma HexIsPlain(c: char)
    requires IsHexDigit(c)
    ensures c != ':' && c != '%'
  {
  }

  lemma {:induction false} EscapePlain(s: string)
    requires forall i :: 0 <= i < |s| ==> s[i] != ':' && s[i] != '%'
    ensures Escape(s) == s
  {
    hide Escape;
    EscapeEmpty(s);
    if s != [] {
      EscapeCons(s);
      EscapePlain(s[1..]);
    }
  }

  lemma CleanParts(s: string)
    ensures CleanChars(Clean(s)) && TrimmedEnd(Clean(s)) && (Clean(s) != [] ==> !IsSpace(Clean(s)[0]))
  {
    hide Clean, IsControl, IsSpace, LowerChar;
    CleanIsClean(s);
  }

  lemma SegmentShape(h: Hash, part: string)
    ensures var s := EscapeSegment(h, part); CleanChars(s) && NoColon(s) && TrimmedEnd(s)
  {
    hide Clean, Escape, CleanChars, NoColon, TrimmedEnd;
    CleanParts(part);
    EscapeShape(Clean(part));
    HashedShape(h, Escape(Clean(part)));
  }

  // ---- whole keys ----------------------------------------------------------------------

  function Segments(h: Hash, parts: seq<string>): (r: seq<string>)
    ensures |r| == |parts|
  {
    if parts == [] then [] else [EscapeSegment(h, parts[0])] + Segments(h, parts[1..])
  }

  function Tail(segments: seq<string>): string {
    if segments == [] then [] else ":" + segments[0] + Tail(segments[1..])
  }

  /** The namespace and the segments joined with colons. */
  function BuildCacheKey(h: Hash, namespace: string, parts: seq<string>): string {
    Clean(namespace) + Tail(Segments(h, parts))
  }

  function CleanedParts(parts: seq<string>): (r: seq<string>)
    ensures |r| == |parts|
  {
    if parts == [] then [] else [Clean(parts[0])] + CleanedParts(parts[1..])
  }

  ghost predicate AllNoColon(segments: seq<string>) {
    forall k :: 0 <= k < |segments| ==> NoColon(segments[k])
  }

  /** The position of the first colon, or the end. */
  function ColonAt(s: string): nat {
    if s == [] || s[0] == ':' then 0 else 1 + ColonAt(s[1..])
  }

  lemma {:induction false} ColonAfter(a: string, r: string)
    requires NoColon(a) && (r != [] ==> r[0] == ':')
    ensures ColonAt(a + r) == |a|
    decreases |a|
  {
    if a != [] {
      assert (a + r)[1..] == a[1..] + r;
      ColonAfter(a[1..], r);
    } else {
      assert a + r == r;
    }
  }

  lemma FirstSegment(a: string, b: string, r: string, t: string)
    requires NoColon(a) && NoColon(b) && a + r == b + t
    requires (r != [] ==> r[0] == ':') && (t != [] ==> t[0] == ':')
    ensures a == b && r == t
  {
    var x, y := a + r, b + t;
    ColonAfter(a, r);
    ColonAfter(b, t);
    assert x[..|a|] == a && y[..|b|] == b && x[|a|..] == r && y[|b|..] == t;
  }

  /** A joined list splits in only one way. */
  lemma {:induction false} TailInjective(a: seq<string>, b: seq<string>)
    requires AllNoColon(a) && AllNoColon(b) && Tail(a) == Tail(b)
    ensures a == b
    decreases |a|
  {
    if a != [] && b != [] {
      var r, t := Tail(a[1..]), Tail(b[1..]);
      assert Tail(a) == [':'] + (a[0] + r) && Tail(b) == [':'] + (b[0] + t);
      assert Tail(a)[1..] == a[0] + r && Tail(b)[1..] == b[0] + t;
      FirstSegment(a[0], b[0], r, t);
      TailInjective(a[1..], b[1..]);
      assert a == [a[0]] + a[1..] && b == [b[0]] + b[1..];
    }
  }

  lemma {:induction false} SegmentsNoColon(h: Hash, parts: seq<string>)
    ensures AllNoColon(Segments(h, parts))
  {
    hide NoColon, EscapeSegment;
    if parts != [] {
      SegmentShape(h, parts[0]);
      SegmentsNoColon(h, parts[1..]);
    }
  }

  lemma {:induction false} SegmentsInjective(h: Hash, a: seq<string>, b: seq<string>)
    requires Segments(h, a) == Segments(h, b)
    requires forall k :: 0 <= k < |a| ==> FitsSegment(a[k])
    requires forall k :: 0 <= k < |b| ==> FitsSegment(b[k])
    ensures CleanedParts(a) == CleanedParts(b)
    decreases |a|
  {
    hide Clean, Escape;
    assert |a| == |b|;
    if a != [] {
      assert Segments(h, a)[0] == Segments(h, b)[0];
      EscapeInjective(Clean(a[0]), Clean(b[0]));
      assert Segments(h, a)[1..] == Segments(h, b)[1..];
      SegmentsInjective(h, a[1..], b[1..]);
    }
  }

  lemma {:induction false} TailShape(h: Hash, parts: seq<string>)
    ensures CleanChars(Tail(Segments(h, parts))) && TrimmedEnd(Tail(Segments(h, parts)))
  {
    hide EscapeSegment, IsControl, IsSpace, LowerChar;
    ColonIsClean();
    if parts != [] {
      var s, r := EscapeSegment(h, parts[0]), Tail(Segments(h, parts[1..]));
      SegmentShape(h, parts[0]);
      TailShape(h, parts[1..]);
      assert Tail(Segments(h, parts)) == ":" + s + r;
    }
  }

  lemma ColonIsClean()
    ensures !IsControl(':') && LowerChar(':') == ':' && !IsSpace(':')
  {
  }

  lemma BuiltKeyIsClean(h: Hash, namespace: string, parts: seq<string>)
    ensures Clean(BuildCacheKey(h, namespace, parts)) == BuildCacheKey(h, namespace, parts)
  {
    hide Clean, IsControl, IsSpace, LowerChar, Segments;
    var ns, t := Clean(namespace), Tail(Segments(h, parts));
    CleanParts(namespace);
    TailShape(h, parts);
    ColonIsClean();
    TailStart(Segments(h, parts));
    CleanIdentity(ns + t);
  }

  lemma TailStart(segments: seq<string>)
    ensures Tail(segments) != [] ==> Tail(segments)[0] == ':'
  {
  }

  /** The stored key of a short list of short parts determines the cleaned parts. */
  lemma KeyDeterminesParts(h: Hash, namespace: string, a: seq<string>, b: seq<string>)
    requires forall k :: 0 <= k < |a| ==> FitsSegment(a[k])
    requires forall k :: 0 <= k < |b| ==> FitsSegment(b[k])
    requires |BuildCacheKey(h, namespace, a)| <= MAX_KEY_LENGTH
    requires |BuildCacheKey(h, namespace, b)| <= MAX_KEY_LENGTH
    requires Normalize(h, BuildCacheKey(h, namespace, a)) == Normalize(h, BuildCacheKey(h, namespace, b))
    ensures CleanedParts(a) == CleanedParts(b)
  {
    hide Clean, Tail, Segments, FitsSegment;
    BuiltKeyIsClean(h, namespace, a);
    BuiltKeyIsClean(h, namespace, b);
    var ns := Clean(namespace);
    var x, y := Tail(Segments(h, a)), Tail(Segments(h, b));
    assert (ns + x)[|ns|..] == x && (ns + y)[|ns|..] == y;
    SegmentsNoColon(h, a);
    SegmentsNoColon(h, b);
    TailInjective(Segments(h, a), Segments(h, b));
    SegmentsInjective(h, a, b);
  }

  /** The limit on segments is needed: a long part shares its key with a short one. */
  lemma LongSegmentHasAlias(h: Hash, part: string)
    requires !FitsSegment(part)
    ensures var alias := EscapeSegment(h, part);
            && EscapeSegment(h, alias) == EscapeSegment(h, part)
            && FitsSegment(alias) && Clean(alias) != Clean(part)
  {
    hide Clean, Escape, IsClean;
    HashedShape(h, Escape(Clean(part)));
    CleanIdentity(EscapeSegment(h, part));
  }

  /** Whatever surrounds it, the long part cannot be told from its alias. */
  lemma LongSegmentKeysCollide(h: Hash, namespace: string, before: seq<string>, part: string, after: seq<string>)
    requires !FitsSegment(part)
    ensures var alias := EscapeSegment(h, part);
            && BuildCacheKey(h, namespace, before + [part] + after)
               == BuildCacheKey(h, namespace, before + [alias] + after)
            && CleanedParts(before + [part] + after) != CleanedParts(before + [alias] + after)
  {
    hide Clean, EscapeSegment, FitsSegment;
    LongSegmentHasAlias(h, part);
    var alias := EscapeSegment(h, part);
    SameSegments(h, before, part, alias, after);
    CleanedPartAt(before + [part] + after, |before|);
    CleanedPartAt(before + [alias] + after, |before|);
  }

  lemma {:induction false} SameSegments(h: Hash, before: seq<string>, x: string, y: string, after: seq<string>)
    requires EscapeSegment(h, x) == EscapeSegment(h, y)
    ensures Segments(h, before + [x] + after) == Segments(h, before + [y] + after)
    decreases |before|
  {
    hide EscapeSegment;
    var a, b := before + [x] + after, before + [y] + after;
    if before == [] {
      assert a[1..] == after && b[1..] == after;
    } else {
      assert a[1..] == before[1..] + [x] + after && b[1..] == before[1..] + [y] + after;
      SameSegments(h, before[1..], x, y, after);
    }
  }

  lemma {:induction false} CleanedPartAt(parts: seq<string>, k: nat)
    requires k < |parts|
    ensures CleanedParts(parts)[k] == Clean(parts[k])
  {
    hide Clean;
    if k > 0 {
      CleanedPartAt(parts[1..], k - 1);
    }
  }
}
