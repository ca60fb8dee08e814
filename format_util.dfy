/**
  * The string helpers of the layout (packages/format/src/bb-format-util.ts,
  * copied as is into src/bb-renderer.ts): JavaScript's first-occurrence
  * `String.prototype.replace` with a string pattern, `split(" ")`, the scan
  * for a `<digits>px` size in a CSS font string, and the substitution of
  * the first 'b' and '#' by the flat and sharp signs.
  */
module FormatUtil {
  import opened Wrappers

  const Flat: char := '\U{266D}'
  const Sharp: char := '\U{266F}'

  /** The font size used when the font string names none. */
  const DefaultFontSize: nat := 12

  // ----- Searching and replacing -----

  /** `pat` occurs in `s` starting at position q. */
  predicate IsAt(s: string, pat: string, q: int) {
    0 <= q && q + |pat| <= |s| && s[q..q + |pat|] == pat
  }

  /** The first occurrence of `pat` in `s` at or after p, or -1. */
  function Find(s: string, pat: string, p: nat): (r: int)
    requires p <= |s|
    ensures r == -1 || (p <= r && r + |pat| <= |s|)
    decreases |s| - p
  {
    if IsAt(s, pat, p) then p
    else if p == |s| then -1
    else Find(s, pat, p + 1)
  }

  /** The search finds an occurrence with none before it, and -1 exactly when there is none. */
  lemma {:induction false} FindSpec(s: string, pat: string, p: nat)
    requires p <= |s|
    ensures var r := Find(s, pat, p);
      (r == -1 || (p <= r && IsAt(s, pat, r))) &&
      (r == -1 <==> forall q :: p <= q <= |s| ==> !IsAt(s, pat, q)) &&
      (r >= 0 ==> forall q :: p <= q < r ==> !IsAt(s, pat, q))
    decreases |s| - p
  {
    if !IsAt(s, pat, p) && p < |s| {
      FindSpec(s, pat, p + 1);
    }
  }

  /** `s.indexOf(pat)`: the position of the first occurrence, or -1. */
  function IndexOf(s: string, pat: string): int {
    Find(s, pat, 0)
  }

  /** The first occurrence is the one position with an occurrence and none before it. */
  lemma IndexOfIsFirst(s: string, pat: string, q: int)
    requires IsAt(s, pat, q) && forall j :: 0 <= j < q ==> !IsAt(s, pat, j)
    ensures IndexOf(s, pat) == q
  {
    FindSpec(s, pat, 0);
  }

  /** For a one-character pattern, an occurrence is a position holding the character. */
  lemma IsAtChar(s: string, c: char, q: int)
    ensures IsAt(s, [c], q) <==> 0 <= q < |s| && s[q] == c
  {
    if 0 <= q < |s| {
      assert s[q..q + 1] == [s[q]];
    }
  }

  /**
    * The first position of a character, as far as it is determined by the
    * positions holding it: -1 when there is none.
    */
  lemma IndexOfChar(s: string, c: char)
    ensures -1 <= IndexOf(s, [c]) < |s|
    ensures IndexOf(s, [c]) == -1 <==> c !in s
    ensures IndexOf(s, [c]) >= 0 ==>
      IndexOf(s, [c]) < |s| && s[IndexOf(s, [c])] == c && c !in s[..IndexOf(s, [c])]
  {
    forall q ensures IsAt(s, [c], q) <==> 0 <= q < |s| && s[q] == c {
      IsAtChar(s, c, q);
    }
    FindSpec(s, [c], 0);
    var r := IndexOf(s, [c]);
    if r >= 0 {
      assert forall j :: 0 <= j < r ==> s[..r][j] == s[j];
    } else {
      assert forall q :: 0 <= q < |s| ==> s[q] != c;
    }
  }

  /** Two strings holding a character at the same positions find it at the same place. */
  lemma IndexOfCharSame(s: string, t: string, c: char)
    requires |s| == |t|
    requires forall i :: 0 <= i < |s| ==> (s[i] == c <==> t[i] == c)
    ensures IndexOf(s, [c]) == IndexOf(t, [c])
  {
    forall q ensures IsAt(s, [c], q) <==> IsAt(t, [c], q) {
      IsAtChar(s, c, q);
      IsAtChar(t, c, q);
    }
    FindSpec(s, [c], 0);
    FindSpec(t, [c], 0);
    var r := IndexOf(s, [c]);
    if r >= 0 {
      IndexOfIsFirst(t, [c], r);
    } else {
      assert forall q :: 0 <= q <= |t| ==> !IsAt(t, [c], q);
    }
  }

  /**
    * `s.replace(pat, rep)` with a string pattern: only the first
    * occurrence is replaced, and the string is unchanged when there is none.
    */
  function ReplaceFirst(s: string, pat: string, rep: string): string {
    var i := IndexOf(s, pat);
    if i < 0 then s else s[..i] + rep + s[i + |pat|..]
  }

  /** Only the first occurrence is replaced: what comes before and after it is kept. */
  lemma ReplaceFirstSpec(s: string, pat: string, rep: string)
    ensures var r := ReplaceFirst(s, pat, rep);
      var i := IndexOf(s, pat);
      (i == -1 ==> r == s) &&
      (i >= 0 ==>
        i + |pat| <= |s| && |r| == |s| - |pat| + |rep| && IsAt(r, rep, i) &&
        r[..i] == s[..i] && r[i + |rep|..] == s[i + |pat|..])
  {
    FindSpec(s, pat, 0);
    var i := IndexOf(s, pat);
    if i >= 0 {
      var r := ReplaceFirst(s, pat, rep);
      assert r[i..i + |rep|] == rep;
    }
  }

  /** Replacing one character by another changes that one position only. */
  lemma ReplaceFirstChar(s: string, c: char, d: char)
    ensures IndexOf(s, [c]) < |s|
    ensures IndexOf(s, [c]) == -1 ==> ReplaceFirst(s, [c], [d]) == s
    ensures IndexOf(s, [c]) >= 0 ==> ReplaceFirst(s, [c], [d]) == s[IndexOf(s, [c]) := d]
  {
    ReplaceFirstSpec(s, [c], [d]);
    FindSpec(s, [c], 0);
    var i := IndexOf(s, [c]);
    if i >= 0 {
      var r := ReplaceFirst(s, [c], [d]);
      assert |r| == |s|;
      forall k | 0 <= k < |s| ensures r[k] == s[i := d][k] {
        if k < i {
          assert r[k] == r[..i][k];
        } else if k > i {
          assert r[k] == r[i + 1..][k - i - 1];
        } else {
          assert r[i..i + 1] == [d];
        }
      }
    }
  }

  // ----- replaceSharpsFlats -----

  /**
    * `replaceSharpsFlats`: the first 'b' becomes a flat sign and the first
    * '#' a sharp sign; every other character is kept.
    */
  function ReplaceSharpsFlats(s: string): string {
    ReplaceFirst(ReplaceFirst(s, "b", [Flat]), "#", [Sharp])
  }

  /**
    * What `replaceSharpsFlats` does, position by position: the length is
    * kept, the first 'b' becomes a flat, the first '#' a sharp.
    */
  lemma ReplaceSharpsFlatsSpec(s: string)
    ensures |ReplaceSharpsFlats(s)| == |s|
    ensures forall i :: 0 <= i < |s| ==>
      ReplaceSharpsFlats(s)[i] == (if i == IndexOf(s, "b") then Flat else if i == IndexOf(s, "#") then Sharp else s[i])
  {
    var s1 := ReplaceFirst(s, "b", [Flat]);
    IndexOfChar(s, 'b');
    IndexOfChar(s, '#');
    ReplaceFirstChar(s, 'b', Flat);
    IndexOfCharSame(s, s1, '#');
    ReplaceFirstChar(s1, '#', Sharp);
  }

  /** A string with neither 'b' nor '#' comes back unchanged. */
  lemma ReplaceSharpsFlatsNoAccidental(s: string)
    requires 'b' !in s && '#' !in s
    ensures ReplaceSharpsFlats(s) == s
  {
    ReplaceSharpsFlatsSpec(s);
    IndexOfChar(s, 'b');
    IndexOfChar(s, '#');
  }

  /**
    * At most two positions change: the first 'b', to a flat, and the first
    * '#', to a sharp; every later 'b' and '#' is kept.
    */
  lemma ReplaceSharpsFlatsChanges(s: string, i: int)
    requires 0 <= i < |s| && ReplaceSharpsFlats(s)[i] != s[i]
    ensures (s[i] == 'b' && ReplaceSharpsFlats(s)[i] == Flat && 'b' !in s[..i]) ||
            (s[i] == '#' && ReplaceSharpsFlats(s)[i] == Sharp && '#' !in s[..i])
  {
    ReplaceSharpsFlatsSpec(s);
    IndexOfChar(s, 'b');
    IndexOfChar(s, '#');
  }

  /**
    * The substitution is not idempotent: with two 'b's, a second
    * application turns the second one into a flat too.
    */
  lemma ReplaceSharpsFlatsNotIdempotent(s: string, i: int, j: int)
    requires 0 <= i < j < |s| && s[i] == 'b' && s[j] == 'b'
    ensures ReplaceSharpsFlats(ReplaceSharpsFlats(s)) != ReplaceSharpsFlats(s)
  {
    var r := ReplaceSharpsFlats(s);
    ReplaceSharpsFlatsSpec(s);
    FindSpec(s, "b", 0);
    var k := IndexOf(s, "b");
    IsAtChar(s, 'b', i);
    assert 0 <= k <= i;
    assert r[j] == 'b' by {
      assert r[j] == (if j == k then Flat else if j == IndexOf(s, "#") then Sharp else s[j]);
      assert j != IndexOf(s, "#") by {
        IndexOfChar(s, '#');
      }
    }
    IndexOfChar(r, 'b');
    var k2 := IndexOf(r, "b");
    assert 0 <= k2 < |r| && r[k2] == 'b';
    var r2 := ReplaceSharpsFlats(r);
    ReplaceSharpsFlatsSpec(r);
    assert r2[k2] == Flat;
    assert r2[k2] != r[k2];
  }

  /** The first test case: "Bb7" keeps the root letter and flattens the second 'b'. */
  lemma ReplaceSharpsFlatsExample()
    ensures ReplaceSharpsFlats("Bb#9") == ['B', Flat, Sharp, '9']
  {
    var s := "Bb#9";
    forall q ensures IsAt(s, "b", q) <==> 0 <= q < |s| && s[q] == 'b' {
      IsAtChar(s, 'b', q);
    }
    forall q ensures IsAt(s, "#", q) <==> 0 <= q < |s| && s[q] == '#' {
      IsAtChar(s, '#', q);
    }
    IndexOfIsFirst(s, "b", 1);
    IndexOfIsFirst(s, "#", 2);
    ReplaceSharpsFlatsSpec(s);
  }

  // ----- split(" ") -----

  /** `tokens.join(" ")`. */
  function Join(tokens: seq<string>): string
    requires |tokens| >= 1
  {
    if |tokens| == 1 then tokens[0] else tokens[0] + " " + Join(tokens[1..])
  }

  /** `s.split(" ")`: the maximal space-free pieces between single spaces, empty ones included. */
  function Split(s: string): (tokens: seq<string>)
    ensures |tokens| >= 1
    ensures forall k :: 0 <= k < |tokens| ==> ' ' !in tokens[k]
    decreases |s|
  {
    IndexOfChar(s, ' ');
    var i := IndexOf(s, " ");
    if i < 0 then [s] else [s[..i]] + Split(s[i + 1..])
  }

  /** Joining a piece in front of others puts one space between them. */
  lemma JoinCons(a: string, rest: seq<string>)
    requires |rest| >= 1
    ensures Join([a] + rest) == a + " " + Join(rest)
  {
    assert ([a] + rest)[1..] == rest;
  }

  /** The first piece ends at the first space. */
  lemma SplitCons(s: string)
    requires IndexOf(s, " ") >= 0
    ensures var i := IndexOf(s, " ");
      i < |s| && Split(s) == [s[..i]] + Split(s[i + 1..])
  {
    IndexOfChar(s, ' ');
  }

  /** The string is the first piece, the space and the rest. */
  lemma AroundSpace(s: string)
    requires IndexOf(s, " ") >= 0
    ensures var i := IndexOf(s, " ");
      i < |s| && s == s[..i] + " " + s[i + 1..]
  {
    IndexOfChar(s, ' ');
    var i := IndexOf(s, " ");
    assert s == s[..i] + [s[i]] + s[i + 1..];
  }

  /** Joining the pieces back with spaces gives the string. */
  lemma {:induction false} SplitJoin(s: string)
    ensures Join(Split(s)) == s
    decreases |s|
  {
    var i := IndexOf(s, " ");
    if i >= 0 {
      SplitCons(s);
      AroundSpace(s);
      JoinCons(s[..i], Split(s[i + 1..]));
      SplitJoin(s[i + 1..]);
    }
  }

  // ----- getContextFontSize -----

  predicate IsDigit(c: char) {
    '0' <= c <= '9'
  }

  /** The end of the run of digits starting at position p. */
  function DigitRunEnd(t: string, p: nat): (e: nat)
    requires p <= |t|
    ensures p <= e <= |t|
    ensures forall i :: p <= i < e ==> IsDigit(t[i])
    ensures e == |t| || !IsDigit(t[e])
    decreases |t| - p
  {
    if p < |t| && IsDigit(t[p]) then DigitRunEnd(t, p + 1) else p
  }

  /**
    * The pattern `([0-9]+)px` matches starting at p. A match must start on a
    * digit and use the whole digit run from there, since the character
    * after a shorter run is a digit, not 'p'.
    */
  predicate PxAt(t: string, p: nat) {
    p < |t| && IsDigit(t[p]) &&
    var e := DigitRunEnd(t, p);
    e + 1 < |t| && t[e] == 'p' && t[e + 1] == 'x'
  }

  /** `parseInt(ds, 10)` of a string of decimal digits. */
  function DigitsValue(ds: string): nat
    requires forall i :: 0 <= i < |ds| ==> IsDigit(ds[i])
  {
    if ds == [] then 0
    else
      var d := ds[|ds| - 1] as int - '0' as int;
      assert IsDigit(ds[|ds| - 1]);
      DigitsValue(ds[..|ds| - 1]) * 10 + d
  }

  /** The number a match starting at p stands for. */
  function PxValue(t: string, p: nat): nat
    requires PxAt(t, p)
  {
    DigitsValue(t[p..DigitRunEnd(t, p)])
  }

  /** The leftmost match at or after p, as `parseInt` reads it. */
  function MatchFrom(t: string, p: nat): Option<nat>
    requires p <= |t|
    decreases |t| - p
  {
    if p == |t| then None
    else if PxAt(t, p) then Some(PxValue(t, p))
    else MatchFrom(t, p + 1)
  }

  /**
    * The scan finds the leftmost match: nothing when no position matches,
    * and otherwise the value at the first position that does.
    */
  lemma {:induction false} MatchFromIsLeftmost(t: string, p: nat)
    requires p <= |t|
    ensures (forall q :: p <= q < |t| ==> !PxAt(t, q)) ==> MatchFrom(t, p) == None
    ensures forall q :: p <= q < |t| && PxAt(t, q) && (forall q' :: p <= q' < q ==> !PxAt(t, q')) ==>
      MatchFrom(t, p) == Some(PxValue(t, q))
    decreases |t| - p
  {
    if p < |t| {
      MatchFromIsLeftmost(t, p + 1);
      if PxAt(t, p) {
        assert MatchFrom(t, p) == Some(PxValue(t, p));
      } else {
        assert MatchFrom(t, p) == MatchFrom(t, p + 1);
        forall q | p <= q < |t| && PxAt(t, q) && (forall q' :: p <= q' < q ==> !PxAt(t, q'))
          ensures MatchFrom(t, p) == Some(PxValue(t, q))
        {
          assert q != p;
          assert forall q' :: p + 1 <= q' < q ==> !PxAt(t, q');
        }
      }
    }
  }

  /** `t.match(/([0-9]+)px/)` followed by `parseInt(match[0], 10)`. */
  function PxMatch(t: string): Option<nat> {
    MatchFrom(t, 0)
  }

  /** The loop over the tokens: the first token with a match decides. */
  function FontSizeOf(tokens: seq<string>): (size: nat)
    ensures (forall k :: 0 <= k < |tokens| ==> PxMatch(tokens[k]).None?) ==> size == DefaultFontSize
    ensures forall k ::
      (0 <= k < |tokens| && PxMatch(tokens[k]).Some? &&
       forall j :: 0 <= j < k ==> PxMatch(tokens[j]).None?) ==>
        size == PxMatch(tokens[k]).value
  {
    if tokens == [] then DefaultFontSize
    else match PxMatch(tokens[0])
      case Some(n) => n
      case None =>
        assert forall k :: 1 <= k < |tokens| ==> tokens[k] == tokens[1..][k - 1];
        FontSizeOf(tokens[1..])
  }

  /** `getContextFontSize`, over the context's font string. */
  function GetContextFontSize(font: string): nat {
    FontSizeOf(Split(font))
  }

  /**
    * Splitting at spaces does not matter: the font size is the value of the
    * leftmost `<digits>px` in the whole font string, and 12 when there is
    * none, since no match spans a space.
    */
  lemma {:induction false} FontSizeIsLeftmostMatch(font: string)
    ensures GetContextFontSize(font) == PxMatch(font).GetOr(DefaultFontSize)
    decreases |font|
  {
    var i := IndexOf(font, " ");
    if i >= 0 {
      assert i < |font| by { IndexOfChar(font, ' '); }
      var a, rest := font[..i], font[i + 1..];
      assert GetContextFontSize(font) == PxMatch(a).GetOr(GetContextFontSize(rest)) by {
        SplitCons(font);
        FontSizeOfCons(a, Split(rest));
      }
      assert PxMatch(font) == if PxMatch(a).Some? then PxMatch(a) else PxMatch(rest) by {
        AroundSpace(font);
        assert ' ' !in a by { IndexOfChar(font, ' '); }
        MatchAcrossSpace(a, rest);
      }
      FontSizeIsLeftmostMatch(rest);
    } else {
      assert Split(font) == [font] by { IndexOfChar(font, ' '); }
    }
  }

  /** The loop stops at the first token when it has a match. */
  lemma FontSizeOfCons(a: string, tokens: seq<string>)
    ensures FontSizeOf([a] + tokens) == PxMatch(a).GetOr(FontSizeOf(tokens))
  {
    assert ([a] + tokens)[1..] == tokens;
  }

  /** Before the space, matches are those of the token. */
  predicate AgreesBefore(a: string, rest: string) {
    forall p: nat :: p < |a| ==>
      PxAt(a + " " + rest, p) == PxAt(a, p) &&
      (PxAt(a, p) ==> PxValue(a + " " + rest, p) == PxValue(a, p))
  }

  /** After the space, matches are those of the rest, shifted. */
  predicate AgreesAfter(a: string, rest: string) {
    forall q: nat :: q < |rest| ==>
      PxAt(a + " " + rest, |a| + 1 + q) == PxAt(rest, q) &&
      (PxAt(rest, q) ==> PxValue(a + " " + rest, |a| + 1 + q) == PxValue(rest, q))
  }

  /** A match in a token, or in what follows the space after it. */
  lemma MatchAcrossSpace(a: string, rest: string)
    requires ' ' !in a
    ensures PxMatch(a + " " + rest) == if PxMatch(a).Some? then PxMatch(a) else PxMatch(rest)
  {
    var t := a + " " + rest;
    forall p: nat | p < |a|
      ensures PxAt(t, p) == PxAt(a, p) && (PxAt(a, p) ==> PxValue(t, p) == PxValue(a, p))
    {
      PxAtPrefix(a, rest, p);
    }
    assert !PxAt(t, |a|) by {
      assert t[|a|] == ' ';
    }
    forall q: nat | q < |rest|
      ensures PxAt(t, |a| + 1 + q) == PxAt(rest, q) &&
        (PxAt(rest, q) ==> PxValue(t, |a| + 1 + q) == PxValue(rest, q))
    {
      PxAtSuffix(a, rest, q);
    }
    MatchFromSplit(a, rest, 0);
  }

  lemma {:induction false} MatchFromSplit(a: string, rest: string, p: nat)
    requires p <= |a|
    requires AgreesBefore(a, rest) && AgreesAfter(a, rest)
    requires !PxAt(a + " " + rest, |a|)
    ensures MatchFrom(a + " " + rest, p) == if MatchFrom(a, p).Some? then MatchFrom(a, p) else PxMatch(rest)
    decreases |a| - p
  {
    var t := a + " " + rest;
    if p < |a| {
      MatchFromSplit(a, rest, p + 1);
      assert PxAt(t, p) == PxAt(a, p);
    } else {
      assert MatchFrom(t, p) == MatchFrom(t, |a| + 1);
      assert SameMatchesFrom(t, rest, |a| + 1);
      MatchFromShift(t, rest, |a| + 1, 0);
    }
  }

  /** `t` ends with `rest`, from position `off` on, as far as matches go. */
  predicate SameMatchesFrom(t: string, rest: string, off: nat) {
    |t| == off + |rest| &&
    forall q: nat :: q < |rest| ==>
      PxAt(t, off + q) == PxAt(rest, q) &&
      (PxAt(rest, q) ==> PxValue(t, off + q) == PxValue(rest, q))
  }

  lemma SameMatchAt(t: string, rest: string, off: nat, q: nat)
    requires SameMatchesFrom(t, rest, off) && q < |rest|
    ensures off + q < |t|
    ensures PxAt(t, off + q) == PxAt(rest, q)
    ensures PxAt(rest, q) ==> PxValue(t, off + q) == PxValue(rest, q)
  {
  }

  lemma {:induction false} MatchFromShift(t: string, rest: string, off: nat, q: nat)
    requires q <= |rest|
    requires SameMatchesFrom(t, rest, off)
    ensures MatchFrom(t, off + q) == MatchFrom(rest, q)
    decreases |rest| - q
  {
    if q < |rest| {
      MatchFromShift(t, rest, off, q + 1);
      SameMatchAt(t, rest, off, q);
    }
  }

  /** Inside the token before a space, a digit run ends before the space. */
  lemma DigitRunPrefix(a: string, rest: string, p: nat)
    requires ' ' !in a && p <= |a|
    ensures DigitRunEnd(a + " " + rest, p) == DigitRunEnd(a, p)
    decreases |a| - p
  {
    var t := a + " " + rest;
    if p < |a| {
      assert t[p] == a[p];
      DigitRunPrefix(a, rest, p + 1);
    } else {
      assert t[p] == ' ';
    }
  }

  lemma PxAtPrefix(a: string, rest: string, p: nat)
    requires ' ' !in a && p < |a|
    ensures PxAt(a + " " + rest, p) == PxAt(a, p)
    ensures PxAt(a, p) ==> PxValue(a + " " + rest, p) == PxValue(a, p)
  {
    var t := a + " " + rest;
    DigitRunPrefix(a, rest, p);
    var e := DigitRunEnd(a, p);
    assert t[p] == a[p];
    assert t[|a|] == ' ';
    assert e < |a| ==> t[e] == a[e];
    assert e + 1 < |a| ==> t[e + 1] == a[e + 1];
    assert t[p..e] == a[p..e];
  }

  /** After the space, digit runs are those of the rest, shifted. */
  lemma DigitRunSuffix(a: string, rest: string, q: nat)
    requires q <= |rest|
    ensures DigitRunEnd(a + " " + rest, |a| + 1 + q) == |a| + 1 + DigitRunEnd(rest, q)
    decreases |rest| - q
  {
    var t := a + " " + rest;
    if q < |rest| {
      assert t[|a| + 1 + q] == rest[q];
      DigitRunSuffix(a, rest, q + 1);
    }
  }

  lemma PxAtSuffix(a: string, rest: string, q: nat)
    requires q < |rest|
    ensures PxAt(a + " " + rest, |a| + 1 + q) == PxAt(rest, q)
    ensures PxAt(rest, q) ==> PxValue(a + " " + rest, |a| + 1 + q) == PxValue(rest, q)
  {
    var t := a + " " + rest;
    var p := |a| + 1 + q;
    DigitRunSuffix(a, rest, q);
    var e := DigitRunEnd(rest, q);
    assert t[p] == rest[q];
    assert e < |rest| ==> t[|a| + 1 + e] == rest[e];
    assert e + 1 < |rest| ==> t[|a| + 1 + e + 1] == rest[e + 1];
    assert t[p..|a| + 1 + e] == rest[q..e];
  }

  /** The demo's font "80px Petaluma Script" gives 80. */
  lemma FontSizeExample()
    ensures GetContextFontSize("80px Petaluma Script") == 80
  {
    var font := "80px Petaluma Script";
    FontSizeIsLeftmostMatch(font);
    PxMatchExample(font);
  }

  lemma PxMatchExample(font: string)
    requires font == "80px Petaluma Script"
    ensures PxMatch(font) == Some(80)
  {
    assert DigitRunEnd(font, 2) == 2;
    assert DigitRunEnd(font, 0) == 2;
    assert PxAt(font, 0);
    assert font[0..2] == "80";
    assert DigitsValue("80") == 80 by {
      assert "80"[..1] == "8";
      assert "8"[..0] == "";
    }
  }

  /** A font string without any `<digits>px` gets the default size 12. */
  lemma FontSizeDefault(font: string)
    requires forall p :: 0 <= p < |font| ==> !PxAt(font, p)
    ensures GetContextFontSize(font) == DefaultFontSize
  {
    FontSizeIsLeftmostMatch(font);
    MatchFromIsLeftmost(font, 0);
  }
}
