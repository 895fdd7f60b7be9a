/**
  Which inputs share a stored key of src/cache.ts, for inputs of any length, and what
  cleaning ignores.
*/
module CacheKeyLaws {
  import opened CacheKeys

  // ---- keys over the limits ----------------------------------------------------------

  /** Two different texts whose digests begin alike. */
  predicate Clash(h: Hash, x: string, y: string, digits: nat) {
    x != y && digits <= 64 && h(x)[..digits] == h(y)[..digits]
  }

  /** The part is literally what a longer part is replaced by. */
  predicate LiteralSegment(h: Hash, short: string, long: string) {
    |Escape(Clean(long))| > 128 && Clean(short) == "h." + h(Escape(Clean(long)))[..24]
  }

  /** Two parts that no key can tell apart: both are long and the digests of their whole escaped
      texts begin alike, or one is literally what the other is replaced by. */
  predicate PartsConfused(h: Hash, a: string, b: string) {
    || (|Escape(Clean(a))| > 128 && |Escape(Clean(b))| > 128 && Clash(h, Escape(Clean(a)), Escape(Clean(b)), 24))
    || LiteralSegment(h, a, b) || LiteralSegment(h, b, a)
  }

  lemma ReplacementShape(h: Hash, text: string)
    ensures |h(text)| == 64 && |"h." + h(text)[..24]| == 26
    ensures Escape("h." + h(text)[..24]) == "h." + h(text)[..24]
  {
    hide Escape, CleanChars, NoColon, TrimmedEnd, IsClean;
    assert IsDigest(h(text));
    HashedShape(h, text);
  }

  lemma SameReplacement(d: string, e: string)
    ensures "h." + d == "h." + e <==> d == e
  {
    assert ("h." + d)[2..] == d && ("h." + e)[2..] == e;
  }

  lemma PlainIsLiteral(x: string, d: string)
    requires Escape(d) == d
    ensures Escape(x) == d <==> x == d
  {
    hide Escape;
    if Escape(x) == d {
      EscapeInjective(x, d);
    }
  }

  function Replacement(h: Hash, text: string): string {
    "h." + h(text)[..24]
  }

  lemma SegmentIs(h: Hash, part: string)
    ensures EscapeSegment(h, part) ==
            if |Escape(Clean(part))| <= 128 then Escape(Clean(part)) else Replacement(h, Escape(Clean(part)))
  {
    hide Clean, Escape;
  }

  lemma LiteralIs(h: Hash, short: string, long: string)
    ensures LiteralSegment(h, short, long) <==>
            |Escape(Clean(long))| > 128 && Clean(short) == Replacement(h, Escape(Clean(long)))
  {
    hide Clean, Escape;
  }

  /** A short part is escaped to the replacement of a long one only if it is that literally. */
  lemma ShortIsLiteral(h: Hash, a: string, b: string)
    requires |Escape(Clean(a))| <= 128 && |Escape(Clean(b))| > 128
    ensures EscapeSegment(h, a) == EscapeSegment(h, b) <==> LiteralSegment(h, a, b)
  {
    hide Clean, Escape, EscapeSegment, LiteralSegment, Replacement;
    var x, y := Clean(a), Escape(Clean(b));
    SegmentIs(h, a);
    SegmentIs(h, b);
    LiteralIs(h, a, b);
    ReplacementPlain(h, y);
    PlainIsLiteral(x, Replacement(h, y));
  }

  lemma ReplacementPlain(h: Hash, text: string)
    ensures Escape(Replacement(h, text)) == Replacement(h, text)
  {
    hide Escape;
    ReplacementShape(h, text);
  }

  /** Segments are equal iff the cleaned parts are, or they are confused in one of these ways. */
  lemma SegmentsEqualIff(h: Hash, a: string, b: string)
    ensures EscapeSegment(h, a) == EscapeSegment(h, b) <==> Clean(a) == Clean(b) || PartsConfused(h, a, b)
  {
    hide Clean, Escape;
    var x, y := Escape(Clean(a)), Escape(Clean(b));
    if |x| <= 128 && |y| <= 128 {
      if x == y {
        EscapeInjective(Clean(a), Clean(b));
      }
    } else if |x| <= 128 {
      ShortIsLiteral(h, a, b);
      NotLiteral(h, b, a);
    } else if |y| <= 128 {
      ShortIsLiteral(h, b, a);
      NotLiteral(h, a, b);
    } else {
      BothLong(h, a, b);
    }
  }

  lemma BothLong(h: Hash, a: string, b: string)
    requires |Escape(Clean(a))| > 128 && |Escape(Clean(b))| > 128
    ensures EscapeSegment(h, a) == EscapeSegment(h, b) <==> Clean(a) == Clean(b) || PartsConfused(h, a, b)
  {
    hide Clean, Escape, IsDigest, LiteralSegment;
    var x, y := Escape(Clean(a)), Escape(Clean(b));
    ReplacementShape(h, x);
    ReplacementShape(h, y);
    SameReplacement(h(x)[..24], h(y)[..24]);
    NotLiteral(h, a, b);
    NotLiteral(h, b, a);
    if x == y {
      EscapeInjective(Clean(a), Clean(b));
    }
  }

  /** What a long part is replaced by is short. */
  lemma NotLiteral(h: Hash, a: string, b: string)
    requires |Escape(Clean(a))| > 128
    ensures !LiteralSegment(h, a, b)
  {
    hide Clean, Escape, IsDigest;
    ReplacementShape(h, Escape(Clean(b)));
  }

  /** The key is literally what a longer key is replaced by. */
  predicate LiteralKey(h: Hash, short: string, long: string) {
    |long| > 300 && short == long[..260] + "~h." + h(long)[..32]
  }

  /** Two cleaned keys stored alike: both are long, begin with the same 260 characters and the
      digests of the whole keys begin alike, or one is literally what the other is replaced by. */
  predicate KeysConfused(h: Hash, x: string, y: string) {
    || (|x| > 300 && |y| > 300 && x[..260] == y[..260] && Clash(h, x, y, 32))
    || LiteralKey(h, x, y) || LiteralKey(h, y, x)
  }

  lemma LiteralKeyShort(h: Hash, short: string, long: string)
    requires LiteralKey(h, short, long)
    ensures |short| == 295
  {
    assert IsDigest(h(long));
  }

  lemma LongKeysEqualIff(h: Hash, x: string, y: string)
    requires |x| > 300 && |y| > 300
    ensures x[..260] + "~h." + h(x)[..32] == y[..260] + "~h." + h(y)[..32] <==> x == y || KeysConfused(h, x, y)
  {
    hide IsDigest;
    assert IsDigest(h(x)) && IsDigest(h(y));
    DigestLength(h(x));
    DigestLength(h(y));
    var a, b := x[..260] + "~h." + h(x)[..32], y[..260] + "~h." + h(y)[..32];
    assert a[..260] == x[..260] && b[..260] == y[..260];
    assert a[263..] == h(x)[..32] && b[263..] == h(y)[..32];
  }

  /** Two raw keys share an entry iff their cleaned forms are equal or confused. */
  lemma NormalizeEqualIff(h: Hash, r: string, s: string)
    ensures Normalize(h, r) == Normalize(h, s) <==>
            Clean(r) == Clean(s) || KeysConfused(h, Clean(r), Clean(s))
  {
    hide Clean, IsDigest;
    var x, y := Clean(r), Clean(s);
    if |x| > 300 && |y| > 300 {
      LongKeysEqualIff(h, x, y);
    }
    if LiteralKey(h, x, y) {
      LiteralKeyShort(h, x, y);
    }
    if LiteralKey(h, y, x) {
      LiteralKeyShort(h, y, x);
    }
  }

  ghost predicate SomePartConfused(h: Hash, a: seq<string>, b: seq<string>) {
    |a| == |b| && exists k :: 0 <= k < |a| && PartsConfused(h, a[k], b[k])
  }

  lemma {:induction false} SegmentsTell(h: Hash, a: seq<string>, b: seq<string>)
    requires Segments(h, a) == Segments(h, b)
    ensures CleanedParts(a) == CleanedParts(b) || SomePartConfused(h, a, b)
    decreases |a|
  {
    hide Clean, EscapeSegment, PartsConfused;
    assert |a| == |b|;
    if a != [] {
      assert Segments(h, a)[0] == Segments(h, b)[0];
      SegmentsEqualIff(h, a[0], b[0]);
      assert Segments(h, a)[1..] == Segments(h, b)[1..];
      SegmentsTell(h, a[1..], b[1..]);
      if Clean(a[0]) == Clean(b[0]) && SomePartConfused(h, a[1..], b[1..]) {
        var k :| 0 <= k < |a[1..]| && PartsConfused(h, a[1..][k], b[1..][k]);
        assert PartsConfused(h, a[k + 1], b[k + 1]);
      }
    }
  }

  /** Equal stored keys come from equal lists of cleaned parts, whatever their lengths, unless
      some two parts or the two whole keys are confused. */
  lemma KeyTells(h: Hash, namespace: string, a: seq<string>, b: seq<string>)
    requires Normalize(h, BuildCacheKey(h, namespace, a)) == Normalize(h, BuildCacheKey(h, namespace, b))
    ensures || CleanedParts(a) == CleanedParts(b)
            || SomePartConfused(h, a, b)
            || KeysConfused(h, BuildCacheKey(h, namespace, a), BuildCacheKey(h, namespace, b))
  {
    hide Clean, Tail, Segments, KeysConfused, SomePartConfused, Normalize;
    BuiltKeyIsClean(h, namespace, a);
    BuiltKeyIsClean(h, namespace, b);
    NormalizeEqualIff(h, BuildCacheKey(h, namespace, a), BuildCacheKey(h, namespace, b));
    if BuildCacheKey(h, namespace, a) == BuildCacheKey(h, namespace, b) {
      var ns := Clean(namespace);
      var x, y := Tail(Segments(h, a)), Tail(Segments(h, b));
      assert (ns + x)[|ns|..] == x && (ns + y)[|ns|..] == y;
      SegmentsNoColon(h, a);
      SegmentsNoColon(h, b);
      TailInjective(Segments(h, a), Segments(h, b));
      SegmentsTell(h, a, b);
    }
  }

  // ---- what a key looks like ------------------------------------------------------------

  /** Visible characters and inner spaces, no capital letter, and no white space at the ends. */
  predicate Visible(s: string) {
    && (forall i :: 0 <= i < |s| ==> ' ' <= s[i] && s[i] != '\U{007F}' && !('A' <= s[i] <= 'Z'))
    && (s != [] ==> ' ' < s[0] <= '~' && ' ' < s[|s| - 1] <= '~')
  }

  /** Such text is not changed. */
  lemma VisibleKept(s: string)
    requires Visible(s)
    ensures Clean(s) == s
  {
    hide Clean;
    CleanIdentity(s);
  }

  predicate Plain(part: string) {
    Visible(part) && |part| <= 128 && forall i :: 0 <= i < |part| ==> part[i] != ':' && part[i] != '%'
  }

  lemma PlainSegment(h: Hash, part: string)
    requires Plain(part)
    ensures EscapeSegment(h, part) == part
  {
    hide Clean, Visible, Escape;
    VisibleKept(part);
    EscapePlain(part);
  }

  lemma PlainSegments(h: Hash, x: string, y: string)
    requires Plain(x) && Plain(y)
    ensures Segments(h, [x, y]) == [x, y]
  {
    hide Plain, EscapeSegment;
    PlainSegment(h, x);
    PlainSegment(h, y);
    assert [x, y][1..] == [y] && [y][1..] == [];
    assert Segments(h, [y]) == [y];
  }

  lemma TwoSegments(x: string, y: string)
    ensures Tail([x, y]) == ":" + x + ":" + y
  {
    assert [x, y][1..] == [y] && [y][1..] == [];
    assert Tail([y]) == ":" + y + [] == ":" + y;
    assert Tail([x, y]) == ":" + x + (":" + y);
  }

  /** Two short plain parts behind a namespace, as they are stored. */
  lemma PlainKey(h: Hash, namespace: string, x: string, y: string)
    requires Visible(namespace) && Plain(x) && Plain(y) && |namespace| + |x| + |y| + 2 <= 300
    ensures Normalize(h, BuildCacheKey(h, namespace, [x, y])) == namespace + ":" + x + ":" + y
  {
    hide Clean, Visible, Plain, EscapeSegment, Tail;
    VisibleKept(namespace);
    BuiltKeyIsClean(h, namespace, [x, y]);
    PlainSegments(h, x, y);
    TwoSegments(x, y);
    hide Segments;
    assert namespace + (":" + x + ":" + y) == namespace + ":" + x + ":" + y;
  }

  /** A colon or a percent sign in a part is stored by its code. */
  lemma EscapeExactly(s: string, t: string)
    ensures Escape(s + ":" + t) == Escape(s) + "%3a" + Escape(t)
    ensures Escape(s + "%" + t) == Escape(s) + "%25" + Escape(t)
  {
    hide Escape;
    EscapeConcat(s, ":" + t);
    EscapeConcat(":", t);
    EscapeConcat(s, "%" + t);
    EscapeConcat("%", t);
    assert s + ":" + t == s + (":" + t) && s + "%" + t == s + ("%" + t);
    EscapeCons(":");
    EscapeCons("%");
    EscapeEmpty([]);
    assert ":"[1..] == [] && "%"[1..] == [];
  }

  lemma EscapeConcat(s: string, t: string)
    ensures Escape(s + t) == Escape(s) + Escape(t)
  {
    ReplaceConcat(s, t, '%', "%25");
    ReplaceConcat(Replace(s, '%', "%25"), Replace(t, '%', "%25"), ':', "%3a");
  }

  // ---- what cleaning ignores ---------------------------------------------------------------

  lemma {:induction false} StripConcat(s: string, t: string)
    ensures StripControlChars(s + t) == StripControlChars(s) + StripControlChars(t)
  {
    hide IsControl;
    if s == [] {
      assert s + t == t;
    } else {
      assert (s + t)[1..] == s[1..] + t;
      StripConcat(s[1..], t);
    }
  }

  /** Control characters, wherever they stand. */
  lemma ControlIgnored(s: string, c: char, t: string)
    requires c < ' ' || c == '\U{007F}'
    ensures Clean(s + [c] + t) == Clean(s + t)
  {
    hide TrimStart, TrimEnd, Lower;
    StripConcat(s + [c], t);
    StripConcat(s, [c]);
    StripConcat(s, t);
    assert [c][1..] == [];
    assert StripControlChars([c]) == [];
    assert StripControlChars(s) + [] == StripControlChars(s);
  }

  lemma {:induction false} TrimEndSpace(s: string, c: char)
    requires IsSpace(c)
    ensures TrimEnd(s + [c]) == TrimEnd(s)
  {
    assert (s + [c])[..|s|] == s;
  }

  lemma {:induction false} TrimStartSpace(s: string, c: char)
    requires IsSpace(c)
    ensures TrimEnd(TrimStart(s + [c])) == TrimEnd(TrimStart(s))
  {
    hide IsSpace, TrimEnd;
    if s == [] {
      assert s + [c] == [c] && [c][1..] == [];
    } else if IsSpace(s[0]) {
      assert (s + [c])[1..] == s[1..] + [c];
      TrimStartSpace(s[1..], c);
    } else {
      TrimEndSpace(s, c);
    }
  }

  /** The white space of JavaScript that is no control character. */
  const SPACES := " \U{00A0}\U{1680}\U{2000}\U{2001}\U{2002}\U{2003}\U{2004}\U{2005}\U{2006}\U{2007}\U{2008}"
                  + "\U{2009}\U{200A}\U{2028}\U{2029}\U{202F}\U{205F}\U{3000}\U{FEFF}"

  /** White space at either end. */
  lemma SpaceIgnored(s: string, c: char)
    requires c in SPACES
    ensures Clean([c] + s) == Clean(s) && Clean(s + [c]) == Clean(s)
  {
    hide TrimEnd, Lower;
    SpacesAre(c);
    SpaceNoControl(c);
    StripConcat([c], s);
    StripConcat(s, [c]);
    assert [c][1..] == [];
    assert StripControlChars([c]) == [c];
    var t := StripControlChars(s);
    assert ([c] + t)[1..] == t;
    TrimStartSpace(t, c);
  }

  lemma SpacesAre(c: char)
    ensures c in SPACES <==> IsSpace(c)
  {
  }

  lemma SpaceNoControl(c: char)
    requires IsSpace(c)
    ensures !IsControl(c)
  {
  }

  /** The case of letters. */
  lemma CaseIgnored(s: string, t: string)
    requires |s| == |t|
    requires forall i :: 0 <= i < |s| ==> t[i] == if 'A' <= s[i] <= 'Z' then s[i] - 'A' + 'a' else s[i]
    ensures Clean(t) == Clean(s)
  {
    hide Lower, StripControlChars, TrimStart, TrimEnd;
    LowerIs(s, t);
    StripLower(s);
    TrimStartLower(StripControlChars(s));
    TrimEndLower(TrimStart(StripControlChars(s)));
    LowerTwice(TrimEnd(TrimStart(StripControlChars(s))));
  }

  lemma LowerIs(s: string, t: string)
    requires |s| == |t|
    requires forall i :: 0 <= i < |s| ==> t[i] == if 'A' <= s[i] <= 'Z' then s[i] - 'A' + 'a' else s[i]
    ensures t == Lower(s)
  {
    forall i | 0 <= i < |s|
      ensures t[i] == Lower(s)[i]
    {
      assert Lower(s)[i] == LowerChar(s[i]);
    }
  }

  lemma LowerTwice(s: string)
    ensures Lower(Lower(s)) == Lower(s)
  {
    hide IsControl, IsSpace;
    forall i | 0 <= i < |s|
      ensures Lower(Lower(s))[i] == Lower(s)[i]
    {
      LowerKeepsClass(s[i]);
    }
  }

  lemma {:induction false} StripLower(s: string)
    ensures StripControlChars(Lower(s)) == Lower(StripControlChars(s))
  {
    hide IsControl, IsSpace, LowerChar;
    if s != [] {
      LowerKeepsClass(s[0]);
      StripLower(s[1..]);
      assert Lower(s)[1..] == Lower(s[1..]);
    }
  }

  lemma {:induction false} TrimStartLower(s: string)
    ensures TrimStart(Lower(s)) == Lower(TrimStart(s))
  {
    hide IsControl, IsSpace, LowerChar;
    if s != [] {
      LowerKeepsClass(s[0]);
      TrimStartLower(s[1..]);
      assert Lower(s)[1..] == Lower(s[1..]);
    }
  }

  lemma {:induction false} TrimEndLower(s: string)
    ensures TrimEnd(Lower(s)) == Lower(TrimEnd(s))
  {
    hide IsControl, IsSpace, LowerChar, Lower;
    if s != [] {
      var n := |s| - 1;
      LowerKeepsClass(s[n]);
      TrimEndLower(s[..n]);
      assert Lower(s)[..n] == Lower(s[..n]);
    }
  }
}
