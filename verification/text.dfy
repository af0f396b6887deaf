/** The PHP string built-ins the error pipeline relies on, over `string`
    (`seq<char>`): `str_replace`, `substr`, `strtoupper`, `htmlspecialchars`
    and the `empty()` test on strings. */
module Text {

  /** PHP's `empty($s)` for a string value: the empty string and `"0"` are empty. */
  predicate IsEmpty(s: string) {
    s == "" || s == "0"
  }

  /** `needle` occurs in `s` starting at index `i`. */
  predicate OccursAt(s: string, needle: string, i: int) {
    0 <= i && i + |needle| <= |s| && s[i..i + |needle|] == needle
  }

  /** `needle` occurs somewhere in `s` (PHP's `strstr($s, $needle) !== false`). */
  predicate Contains(s: string, needle: string) {
    exists i | 0 <= i <= |s| :: OccursAt(s, needle, i)
  }

  predicate StartsWith(s: string, prefix: string) {
    |prefix| <= |s| && s[..|prefix|] == prefix
  }

  predicate EndsWith(s: string, suffix: string) {
    |suffix| <= |s| && s[|s| - |suffix|..] == suffix
  }

  /** A concatenation starts with its first part and ends with its second. */
  lemma ConcatEnds(p: string, q: string)
    ensures StartsWith(p + q, p) && EndsWith(p + q, q)
  {
    assert (p + q)[..|p|] == p;
    assert (p + q)[|p + q| - |q|..] == q;
  }

  /** Appending keeps a prefix. */
  lemma PrefixExtends(s: string, p: string, t: string)
    requires StartsWith(s, p)
    ensures StartsWith(s + t, p)
  {
    assert (s + t)[..|p|] == s[..|p|];
  }

  /** The head and tail of a concatenation with a non-empty first part. */
  lemma AppendTail<T>(a: seq<T>, b: seq<T>)
    requires |a| > 0
    ensures (a + b)[0] == a[0] && (a + b)[1..] == a[1..] + b
  {
  }

  lemma AppendAssoc<T>(x: seq<T>, y: seq<T>, z: seq<T>)
    ensures x + (y + z) == (x + y) + z
  {
  }

  // ---------------------------------------------------------------------
  // str_replace
  // ---------------------------------------------------------------------

  /** PHP's `str_replace($needle, $rep, $s)`: scans left to right and replaces
      every non-overlapping occurrence; an empty needle leaves `s` as it is. */
  function ReplaceAll(s: string, needle: string, rep: string): string
    decreases |s|
  {
    if |needle| == 0 || |s| < |needle| then s
    else if s[..|needle|] == needle then rep + ReplaceAll(s[|needle|..], needle, rep)
    else [s[0]] + ReplaceAll(s[1..], needle, rep)
  }

  /** The stretches of `s` between the occurrences `ReplaceAll` replaces, in
      order. This is the reference description of `str_replace`: the pieces
      are kept verbatim and only the separators between them change. */
  function Split(s: string, needle: string): (pieces: seq<string>)
    ensures |pieces| >= 1
    ensures StartsWith(s, pieces[0])
    decreases |s|
  {
    if |needle| == 0 || |s| < |needle| then [s]
    else if s[..|needle|] == needle then [""] + Split(s[|needle|..], needle)
    else
      var rest := Split(s[1..], needle);
      [[s[0]] + rest[0]] + rest[1..]
  }

  /** The pieces glued together with `sep` between consecutive pieces. */
  function Join(pieces: seq<string>, sep: string): string
    requires |pieces| >= 1
  {
    if |pieces| == 1 then pieces[0] else pieces[0] + sep + Join(pieces[1..], sep)
  }

  lemma JoinConsHead(c: char, ps: seq<string>, sep: string)
    requires |ps| >= 1
    ensures Join([[c] + ps[0]] + ps[1..], sep) == [c] + Join(ps, sep)
  {
    var qs := [[c] + ps[0]] + ps[1..];
    if |ps| > 1 {
      assert qs[1..] == ps[1..];
    }
  }

  /** `str_replace` is exactly: cut at the occurrences, glue with the replacement. */
  lemma {:induction false} ReplaceAllJoinsPieces(s: string, needle: string, rep: string)
    ensures ReplaceAll(s, needle, rep) == Join(Split(s, needle), rep)
    decreases |s|
  {
    if |needle| == 0 || |s| < |needle| {
    } else if s[..|needle|] == needle {
      ReplaceAllJoinsPieces(s[|needle|..], needle, rep);
      var rest := Split(s[|needle|..], needle);
      assert ([""] + rest)[1..] == rest;
    } else {
      ReplaceAllJoinsPieces(s[1..], needle, rep);
      JoinConsHead(s[0], Split(s[1..], needle), rep);
    }
  }

  /** Replacing a needle by itself changes nothing. */
  lemma {:induction false} ReplaceAllBySelf(s: string, needle: string)
    ensures ReplaceAll(s, needle, needle) == s
    decreases |s|
  {
    if |needle| == 0 || |s| < |needle| {
    } else if s[..|needle|] == needle {
      ReplaceAllBySelf(s[|needle|..], needle);
      assert s == s[..|needle|] + s[|needle|..];
    } else {
      ReplaceAllBySelf(s[1..], needle);
      assert s == [s[0]] + s[1..];
    }
  }

  /** Gluing the pieces back with the needle itself restores the input: the
      pieces and the occurrences between them partition `s`. */
  lemma SplitJoinRoundTrip(s: string, needle: string)
    ensures Join(Split(s, needle), needle) == s
  {
    ReplaceAllJoinsPieces(s, needle, needle);
    ReplaceAllBySelf(s, needle);
  }

  lemma OccurrenceShifts(s: string, needle: string, i: int)
    requires |s| >= 1 && OccursAt(s[1..], needle, i)
    ensures OccursAt(s, needle, i + 1)
  {
    assert s[i + 1..i + 1 + |needle|] == s[1..][i..i + |needle|];
  }

  /** A string without the needle passes through `str_replace` unchanged. */
  lemma {:induction false} ReplaceAllAbsent(s: string, needle: string, rep: string)
    requires !Contains(s, needle)
    ensures ReplaceAll(s, needle, rep) == s
    decreases |s|
  {
    if |needle| == 0 || |s| < |needle| {
    } else {
      assert !OccursAt(s, needle, 0);
      forall i | OccursAt(s[1..], needle, i)
        ensures false
      {
        OccurrenceShifts(s, needle, i);
      }
      ReplaceAllAbsent(s[1..], needle, rep);
      assert s == [s[0]] + s[1..];
    }
  }

  /** Replacing a needle in the needle alone gives the replacement. */
  lemma ReplaceAllWhole(needle: string, rep: string)
    requires |needle| > 0
    ensures ReplaceAll(needle, needle, rep) == rep
  {
    assert needle[..|needle|] == needle;
    assert needle[|needle|..] == "";
    assert rep + "" == rep;
  }

  /** A string that holds the needle holds the replacement afterwards. */
  lemma {:induction false} ReplaceAllInserts(s: string, needle: string, rep: string)
    requires |needle| > 0 && Contains(s, needle)
    ensures Contains(ReplaceAll(s, needle, rep), rep)
    decreases |s|
  {
    var i :| 0 <= i <= |s| && OccursAt(s, needle, i);
    var r := ReplaceAll(s, needle, rep);
    if s[..|needle|] == needle {
      assert OccursAt(r, rep, 0);
    } else {
      assert i > 0;
      assert s[1..][i - 1..i - 1 + |needle|] == s[i..i + |needle|];
      assert OccursAt(s[1..], needle, i - 1);
      ReplaceAllInserts(s[1..], needle, rep);
      var t := ReplaceAll(s[1..], needle, rep);
      var j :| 0 <= j <= |t| && OccursAt(t, rep, j);
      assert r == [s[0]] + t;
      assert r[j + 1..j + 1 + |rep|] == t[j..j + |rep|];
      assert OccursAt(r, rep, j + 1);
    }
  }

  /** No piece of a split still holds the (non-empty) needle: every occurrence
      was cut out. */
  lemma {:induction false} SplitPiecesFree(s: string, needle: string)
    requires |needle| > 0
    ensures forall k :: 0 <= k < |Split(s, needle)| ==> !Contains(Split(s, needle)[k], needle)
    decreases |s|
  {
    var pieces := Split(s, needle);
    if |s| < |needle| {
      forall i | OccursAt(s, needle, i)
        ensures false
      {
      }
    } else if s[..|needle|] == needle {
      SplitPiecesFree(s[|needle|..], needle);
      var rest := Split(s[|needle|..], needle);
      assert pieces == [""] + rest;
      forall k | 0 <= k < |pieces|
        ensures !Contains(pieces[k], needle)
      {
        if k == 0 {
          forall i | OccursAt("", needle, i)
            ensures false
          {
          }
        } else {
          assert pieces[k] == rest[k - 1];
        }
      }
    } else {
      SplitPiecesFree(s[1..], needle);
      var rest := Split(s[1..], needle);
      var head := [s[0]] + rest[0];
      assert pieces == [head] + rest[1..];
      assert head == s[..|head|];
      forall i | 0 < i && i + |needle| <= |head|
        ensures !OccursAt(head, needle, i)
      {
        assert head[i..i + |needle|] == rest[0][i - 1..i - 1 + |needle|];
        assert !OccursAt(rest[0], needle, i - 1);
      }
      forall k | 0 <= k < |pieces|
        ensures !Contains(pieces[k], needle)
      {
        if k > 0 {
          assert pieces[k] == rest[k];
        }
      }
    }
  }

  // ---------------------------------------------------------------------
  // Space removal (str_replace(' ', '', $s))
  // ---------------------------------------------------------------------

  /** Reference definition: `s` with every space character dropped. */
  function DropSpaces(s: string): string {
    if |s| == 0 then ""
    else (if s[0] == ' ' then "" else [s[0]]) + DropSpaces(s[1..])
  }

  /** PHP's `str_replace(' ', '', $s)`. */
  function RemoveSpaces(s: string): (r: string)
    ensures r == DropSpaces(s)
    ensures ' ' !in r
  {
    RemoveSpacesDrops(s);
    NoSpaceAfterDrop(s);
    ReplaceAll(s, " ", "")
  }

  lemma {:induction false} RemoveSpacesDrops(s: string)
    ensures ReplaceAll(s, " ", "") == DropSpaces(s)
  {
    if |s| == 0 {
    } else if s[0] == ' ' {
      assert s[..1] == " ";
      RemoveSpacesDrops(s[1..]);
    } else {
      assert s[..1] != " ";
      RemoveSpacesDrops(s[1..]);
    }
  }

  /** Removing spaces works piecewise. */
  lemma {:induction false} DropSpacesAppend(a: string, b: string)
    ensures DropSpaces(a + b) == DropSpaces(a) + DropSpaces(b)
    decreases |a|
  {
    if |a| == 0 {
      assert a + b == b;
    } else {
      assert (a + b)[0] == a[0];
      assert (a + b)[1..] == a[1..] + b;
      DropSpacesAppend(a[1..], b);
    }
  }

  /** Text without spaces is kept as it is. */
  lemma {:induction false} DropSpacesKeepsSpaceless(s: string)
    requires ' ' !in s
    ensures DropSpaces(s) == s
    decreases |s|
  {
    if |s| > 0 {
      assert s[0] != ' ';
      assert forall i :: 0 <= i < |s[1..]| ==> s[1..][i] == s[i + 1];
      DropSpacesKeepsSpaceless(s[1..]);
      assert s == [s[0]] + s[1..];
    }
  }

  lemma {:induction false} NoSpaceAfterDrop(s: string)
    ensures ' ' !in DropSpaces(s)
  {
    if |s| > 0 {
      NoSpaceAfterDrop(s[1..]);
    }
  }

  // ---------------------------------------------------------------------
  // substr / strtoupper
  // ---------------------------------------------------------------------

  /** PHP's `substr($s, 0, $n)`: the first `n` characters, or all of `s` when shorter. */
  function Head(s: string, n: nat): (r: string)
    ensures |r| <= n && |r| <= |s|
    ensures StartsWith(s, r)
    ensures |s| <= n ==> r == s
    ensures |s| >= n ==> |r| == n
  {
    if |s| <= n then s else s[..n]
  }

  predicate IsLower(c: char) {
    'a' <= c <= 'z'
  }

  /** `strtoupper` on one character: ASCII letters only (the "C" locale). */
  function UpperChar(c: char): (u: char)
    ensures !IsLower(u)
    ensures IsLower(c) ==> u as int == c as int - 32
    ensures !IsLower(c) ==> u == c
  {
    if IsLower(c) then (c as int - 32) as char else c
  }

  /** PHP's `strtoupper`. */
  function ToUpper(s: string): (r: string)
    ensures |r| == |s|
    ensures forall i :: 0 <= i < |r| ==> !IsLower(r[i])
    ensures forall i :: 0 <= i < |s| && !IsLower(s[i]) ==> r[i] == s[i]
    ensures forall i :: 0 <= i < |s| && IsLower(s[i]) ==> r[i] as int == s[i] as int - 32
  {
    seq(|s|, i requires 0 <= i < |s| => UpperChar(s[i]))
  }

  /** Upper-casing is idempotent. */
  lemma ToUpperIdempotent(s: string)
    ensures ToUpper(ToUpper(s)) == ToUpper(s)
  {
  }

  // ---------------------------------------------------------------------
  // htmlspecialchars (ENT_COMPAT: &, ", <, > are escaped; ' is not)
  // ---------------------------------------------------------------------

  predicate IsSpecial(c: char) {
    c == '&' || c == '"' || c == '<' || c == '>'
  }

  function EscapeChar(c: char): string {
    if c == '&' then "&amp;"
    else if c == '"' then "&quot;"
    else if c == '<' then "&lt;"
    else if c == '>' then "&gt;"
    else [c]
  }

  /** PHP's `htmlspecialchars($s)` with the default flags. */
  function Escape(s: string): (r: string)
    ensures '<' !in r && '>' !in r && '"' !in r
    ensures |r| >= |s|
  {
    if |s| == 0 then "" else EscapeChar(s[0]) + Escape(s[1..])
  }

  /** Decoding of the four entities `Escape` produces; any other text is kept. */
  function Unescape(t: string): string
    decreases |t|
  {
    if |t| == 0 then ""
    else if StartsWith(t, "&amp;") then "&" + Unescape(t[5..])
    else if StartsWith(t, "&quot;") then "\"" + Unescape(t[6..])
    else if StartsWith(t, "&lt;") then "<" + Unescape(t[4..])
    else if StartsWith(t, "&gt;") then ">" + Unescape(t[4..])
    else [t[0]] + Unescape(t[1..])
  }

  /** Decoding consumes exactly the text one character escaped to. */
  lemma UnescapeStep(c: char, rest: string)
    ensures Unescape(EscapeChar(c) + rest) == [c] + Unescape(rest)
  {
    if c == '&' {
      UnescapeAmp(rest);
    } else if c == '"' {
      UnescapeQuot(rest);
    } else if c == '<' {
      UnescapeLt(rest);
    } else if c == '>' {
      UnescapeGt(rest);
    } else {
      UnescapeOther(c, rest);
    }
  }

  lemma UnescapeAmp(rest: string)
    ensures Unescape("&amp;" + rest) == "&" + Unescape(rest)
  {
    var t := "&amp;" + rest;
    assert t[..5] == "&amp;" && t[5..] == rest;
  }

  lemma UnescapeQuot(rest: string)
    ensures Unescape("&quot;" + rest) == "\"" + Unescape(rest)
  {
    var t := "&quot;" + rest;
    MismatchAt(t, "&amp;", 1);
    assert t[..6] == "&quot;" && t[6..] == rest;
  }

  lemma UnescapeLt(rest: string)
    ensures Unescape("&lt;" + rest) == "<" + Unescape(rest)
  {
    var t := "&lt;" + rest;
    MismatchAt(t, "&amp;", 1);
    MismatchAt(t, "&quot;", 1);
    assert t[..4] == "&lt;" && t[4..] == rest;
  }

  lemma UnescapeGt(rest: string)
    ensures Unescape("&gt;" + rest) == ">" + Unescape(rest)
  {
    var t := "&gt;" + rest;
    MismatchAt(t, "&amp;", 1);
    MismatchAt(t, "&quot;", 1);
    MismatchAt(t, "&lt;", 1);
    assert t[..4] == "&gt;" && t[4..] == rest;
  }

  /** One differing character rules a prefix out. */
  lemma MismatchAt(t: string, p: string, i: nat)
    requires i < |t| && i < |p| && t[i] != p[i]
    ensures !StartsWith(t, p)
  {
    if |p| <= |t| {
      assert t[..|p|][i] == t[i];
    }
  }

  lemma UnescapeOther(c: char, rest: string)
    requires !IsSpecial(c)
    ensures Unescape([c] + rest) == [c] + Unescape(rest)
  {
    var t := [c] + rest;
    assert t[0] == c && t[1..] == rest;
  }

  /** Escaping loses nothing: decoding the entities restores the text. */
  lemma {:induction false} EscapeRoundTrip(s: string)
    ensures Unescape(Escape(s)) == s
  {
    if |s| > 0 {
      EscapeRoundTrip(s[1..]);
      UnescapeStep(s[0], Escape(s[1..]));
      assert s == [s[0]] + s[1..];
    }
  }

  /** One of the four entities `Escape` produces starts `t`. */
  predicate StartsEntity(t: string) {
    StartsWith(t, "&amp;") || StartsWith(t, "&quot;") || StartsWith(t, "&lt;") || StartsWith(t, "&gt;")
  }

  /** The shape of `htmlspecialchars` output: no raw `<`, `>` or `"`, and
      every `&` begins one of the entities. */
  predicate Escaped(t: string) {
    && '<' !in t && '>' !in t && '"' !in t
    && forall i :: 0 <= i < |t| && t[i] == '&' ==> StartsEntity(t[i..])
  }

  lemma EscapedSuffix(t: string, k: nat)
    requires Escaped(t) && k <= |t|
    ensures Escaped(t[k..])
  {
    var u := t[k..];
    assert forall j :: 0 <= j < |u| ==> u[j] == t[k + j];
    forall j | 0 <= j < |u| && u[j] == '&' ensures StartsEntity(u[j..]) {
      assert u[j..] == t[k + j..];
    }
  }

  lemma EscapeCons(c: char, u: string)
    ensures Escape([c] + u) == EscapeChar(c) + Escape(u)
  {
    assert ([c] + u)[0] == c && ([c] + u)[1..] == u;
  }

  /** Escaped text has that shape. */
  lemma {:induction false} EscapeIsEscaped(s: string)
    ensures Escaped(Escape(s))
    decreases |s|
  {
    if |s| > 0 {
      EscapeIsEscaped(s[1..]);
      var e, rest := EscapeChar(s[0]), Escape(s[1..]);
      var r := Escape(s);
      assert r == e + rest;
      ConcatEnds(e, rest);
      forall i | 0 <= i < |r| && r[i] == '&' ensures StartsEntity(r[i..]) {
        if i < |e| {
          assert r[i] == e[i];
          assert i == 0;
          assert r[i..] == r;
        } else {
          assert r[i..] == rest[i - |e|..];
          assert rest[i - |e|] == r[i];
        }
      }
    }
  }

  /** Text of that shape is the escaping of what it decodes to: escaping is
      the only way to produce it. */
  lemma {:induction false} EscapedUnique(t: string)
    requires Escaped(t)
    ensures Escape(Unescape(t)) == t
    decreases |t|
  {
    if |t| > 0 {
      if t[0] == '&' {
        assert t[0..] == t;
        var n := if StartsWith(t, "&amp;") then 5 else if StartsWith(t, "&quot;") then 6 else 4;
        var rest := t[n..];
        EscapedSuffix(t, n);
        EscapedUnique(rest);
        assert t == t[..n] + rest;
        if StartsWith(t, "&amp;") {
          UnescapeAmp(rest);
          EscapeCons('&', Unescape(rest));
        } else if StartsWith(t, "&quot;") {
          UnescapeQuot(rest);
          EscapeCons('"', Unescape(rest));
        } else if StartsWith(t, "&lt;") {
          UnescapeLt(rest);
          EscapeCons('<', Unescape(rest));
        } else {
          UnescapeGt(rest);
          EscapeCons('>', Unescape(rest));
        }
      } else {
        var c, rest := t[0], t[1..];
        assert t == [c] + rest;
        UnescapeOther(c, rest);
        EscapedSuffix(t, 1);
        EscapedUnique(rest);
        EscapeCons(c, Unescape(rest));
      }
    }
  }

  /** Text without special characters is not changed by escaping. */
  lemma {:induction false} EscapePlain(s: string)
    requires forall i :: 0 <= i < |s| ==> !IsSpecial(s[i])
    ensures Escape(s) == s
  {
    if |s| > 0 {
      EscapePlain(s[1..]);
      assert s == [s[0]] + s[1..];
    }
  }
}
