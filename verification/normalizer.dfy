/** `format_string`: the validity checks on a raw text, the full-width to
    half-width conversion and the collapsing of whitespace runs. */
module Normalizer {
  import opened Base

  /** The full-width digits (U+FF10..U+FF19) and the full-width capitals with
      '［' (U+FF21..U+FF3B): the code points the conversion shifts by 65248. */
  predicate IsShifted(c: CodePoint) {
    65296 <= c <= 65305 || 65313 <= c <= 65339
  }

  /** One step of the conversion loop: the ideographic space becomes an ASCII
      space, a shifted code point moves down by 65248, anything else stays. */
  function HalfWidth(c: CodePoint): CodePoint {
    if c == 12288 then 32
    else if IsShifted(c) then c - 65248
    else c
  }

  /** The code points the conversion changes are exactly the ideographic
      space and the shifted ranges; everything it produces is left alone by a
      second conversion. */
  lemma HalfWidthChanges(c: CodePoint)
    ensures HalfWidth(c) != c <==> c == 12288 || IsShifted(c)
    ensures HalfWidth(HalfWidth(c)) == HalfWidth(c)
    ensures 65345 <= c <= 65370 ==> HalfWidth(c) == c
  {
  }

  /** The conversion never turns a visible character into whitespace. */
  lemma HalfWidthKeepsVisible(ws: SpaceClass, c: CodePoint)
    requires ValidSpace(ws)
    requires !ws(c)
    ensures !ws(HalfWidth(c))
  {
    if IsShifted(c) {
      var d: CodePoint := c - 65248;
      assert 48 <= d <= 57 || 65 <= d <= 91;
    }
  }

  /** The string the conversion loop builds: one code point for one. */
  function MapWidth(s: Text): (r: Text)
    ensures |r| == |s|
    ensures forall i :: 0 <= i < |s| ==> r[i] == HalfWidth(s[i])
  {
    if s == [] then [] else [HalfWidth(s[0])] + MapWidth(s[1..])
  }

  /** MapWidth is the only text that converts the input code point by code point. */
  lemma MapWidthUnique(s: Text, half: Text)
    requires |half| == |s|
    requires forall k :: 0 <= k < |s| ==> half[k] == HalfWidth(s[k])
    ensures half == MapWidth(s)
  {
  }

  /** `regex.sub(r'[\p{Z}\s]+', ' ', ...)`: each maximal whitespace run becomes one ASCII space. */
  function Collapse(ws: SpaceClass, s: Text): (r: Text)
    ensures |r| <= |s|
    ensures r == [] <==> s == []
    ensures s != [] && !ws(s[0]) ==> r[0] == s[0]
    decreases |s|
  {
    if s == [] then []
    else if ws(s[0]) then [32] + Collapse(ws, TrimLeft(ws, s))
    else [s[0]] + Collapse(ws, s[1..])
  }

  /** Collapsing introduces no character but the ASCII space. */
  lemma {:induction false} CollapseChars(ws: SpaceClass, s: Text)
    ensures forall c :: c in Collapse(ws, s) ==> c in s || c == 32
    decreases |s|
  {
    if s != [] {
      var rest := if ws(s[0]) then TrimLeft(ws, s) else s[1..];
      CollapseChars(ws, rest);
      TrimLeftSuffix(ws, s);
      assert forall c :: c in rest ==> c in s;
    }
  }

  /** Every whitespace character is an ASCII space and no two of them are adjacent. */
  predicate SingleSpaced(ws: SpaceClass, t: Text) {
    && (forall i :: 0 <= i < |t| && ws(t[i]) ==> t[i] == 32)
    && (forall i :: 0 <= i < |t| - 1 && ws(t[i]) ==> !ws(t[i + 1]))
  }

  /** The shape of every normalised text. */
  predicate Canonical(ws: SpaceClass, t: Text) {
    t != [] && !ws(t[0]) && !ws(t[|t| - 1]) && SingleSpaced(ws, t)
  }

  /** Every character is a fixed point of the width conversion. */
  predicate WidthFixed(t: Text) {
    forall c :: c in t ==> HalfWidth(c) == c
  }

  lemma {:induction false} CollapseSpaces(ws: SpaceClass, s: Text)
    ensures SingleSpaced(ws, Collapse(ws, s))
    decreases |s|
  {
    if s != [] {
      var rest := if ws(s[0]) then TrimLeft(ws, s) else s[1..];
      CollapseSpaces(ws, rest);
      var t := Collapse(ws, rest);
      var r := Collapse(ws, s);
      assert r == [r[0]] + t;
      if ws(s[0]) {
        assert t == [] || !ws(t[0]);
      }
      forall i | 0 <= i < |r| - 1 && ws(r[i])
        ensures !ws(r[i + 1])
      {
        if i > 0 {
          assert r[i] == t[i - 1] && r[i + 1] == t[i];
        }
      }
    }
  }

  lemma {:induction false} CollapseLast(ws: SpaceClass, s: Text)
    requires s != [] && !ws(s[|s| - 1])
    ensures Collapse(ws, s)[|Collapse(ws, s)| - 1] == s[|s| - 1]
    decreases |s|
  {
    var rest := if ws(s[0]) then TrimLeft(ws, s) else s[1..];
    var head := if ws(s[0]) then 32 else s[0];
    var t := Collapse(ws, rest);
    assert Collapse(ws, s) == [head] + t;
    if rest != [] {
      assert rest[|rest| - 1] == s[|s| - 1] by {
        if ws(s[0]) {
          TrimLeftSuffix(ws, s);
        }
      }
      CollapseLast(ws, rest);
      assert ([head] + t)[|t|] == t[|t| - 1];
    } else if ws(s[0]) {
      TrimLeftDrops(ws, s);
      assert false;
    }
  }

  lemma {:induction false} CollapseKeepsText(ws: SpaceClass, s: Text)
    requires ws(32)
    ensures RemoveSpace(ws, Collapse(ws, s)) == RemoveSpace(ws, s)
    decreases |s|
  {
    if s != [] {
      var r := Collapse(ws, s);
      if ws(s[0]) {
        var l := TrimLeft(ws, s);
        CollapseKeepsText(ws, l);
        TrimLeftKeepsText(ws, s);
        assert r == [32] + Collapse(ws, l);
        RemoveSpaceAppend(ws, [32], Collapse(ws, l));
      } else {
        CollapseKeepsText(ws, s[1..]);
        assert r == [s[0]] + Collapse(ws, s[1..]);
        RemoveSpaceAppend(ws, [s[0]], Collapse(ws, s[1..]));
        RemoveSpaceAppend(ws, [s[0]], s[1..]);
        assert s == [s[0]] + s[1..];
      }
    }
  }

  /** Collapsing a single-spaced text changes nothing. */
  lemma {:induction false} CollapseFixed(ws: SpaceClass, t: Text)
    requires SingleSpaced(ws, t)
    ensures Collapse(ws, t) == t
    decreases |t|
  {
    if t != [] {
      assert SingleSpaced(ws, t[1..]) by {
        forall i | 0 <= i < |t[1..]| - 1 && ws(t[1..][i])
          ensures !ws(t[1..][i + 1])
        {
          assert t[1..][i] == t[i + 1];
        }
      }
      CollapseFixed(ws, t[1..]);
      if ws(t[0]) {
        assert TrimLeft(ws, t) == t[1..];
      }
    }
  }

  /** The value of `format_string` on a raw text: the two checks look at the
      raw text, before any conversion; the blank check (the stripped text is
      empty exactly when every character is whitespace) comes first. */
  function Normalized(ws: SpaceClass, maxLength: nat, s: Text): Result<Text> {
    if AllSpace(ws, s) then Err(ZeroLength)
    else if |s| > maxLength then Err(MaxLength(|s|))
    else Ok(Collapse(ws, Strip(ws, MapWidth(s))))
  }

  /** The error cases: blank text fails with ZeroLength whatever its length;
      a non-blank text longer than the maximum fails with MaxLength carrying
      its length; a non-blank text of at most the maximum length (the limit
      itself included) succeeds. */
  lemma NormalizedErrors(ws: SpaceClass, maxLength: nat, s: Text)
    ensures Normalized(ws, maxLength, s) == Err(ZeroLength) <==> AllSpace(ws, s)
    ensures Normalized(ws, maxLength, s) == Err(MaxLength(|s|)) <==> !AllSpace(ws, s) && |s| > maxLength
    ensures Normalized(ws, maxLength, s).Ok? <==> !AllSpace(ws, s) && |s| <= maxLength
  {
  }

  /** What the conversion produces is a fixed point of the conversion. */
  lemma MapWidthFixed(s: Text)
    ensures WidthFixed(MapWidth(s))
  {
    var m := MapWidth(s);
    forall c | c in m
      ensures HalfWidth(c) == c
    {
      var i :| 0 <= i < |m| && m[i] == c;
      HalfWidthChanges(s[i]);
    }
  }

  /** Strip and collapse keep a fixed point of the conversion fixed. */
  lemma CollapseStripFixed(ws: SpaceClass, m: Text)
    requires WidthFixed(m)
    ensures WidthFixed(Collapse(ws, Strip(ws, m)))
  {
    var st := Strip(ws, m);
    StripChars(ws, m);
    assert WidthFixed(st);
    CollapseChars(ws, st);
    assert HalfWidth(32) == 32;
  }

  /** A text with a visible character still has one after the conversion. */
  lemma MapWidthNotBlank(ws: SpaceClass, s: Text)
    requires ValidSpace(ws)
    requires !AllSpace(ws, s)
    ensures !AllSpace(ws, MapWidth(s))
  {
    var i :| 0 <= i < |s| && !ws(s[i]);
    HalfWidthKeepsVisible(ws, s[i]);
    assert !ws(MapWidth(s)[i]);
  }

  /** Stripping a text that is not blank and collapsing the result gives the
      canonical shape. */
  lemma StripCollapseCanonical(ws: SpaceClass, m: Text)
    requires !AllSpace(ws, m)
    ensures Canonical(ws, Collapse(ws, Strip(ws, m)))
  {
    var st := Strip(ws, m);
    StripVisible(ws, m);
    CollapseCanonical(ws, st);
  }

  /** Collapsing a text with visible ends gives the canonical shape. */
  lemma CollapseCanonical(ws: SpaceClass, st: Text)
    requires st != [] && !ws(st[0]) && !ws(st[|st| - 1])
    ensures Canonical(ws, Collapse(ws, st))
  {
    CollapseSpaces(ws, st);
    CollapseLast(ws, st);
  }

  /** A normalised text is non-empty, has no leading or trailing whitespace,
      has only single ASCII spaces as separators, is no longer than the input
      and is left alone by the width conversion. */
  lemma NormalizedShape(ws: SpaceClass, maxLength: nat, s: Text)
    requires ValidSpace(ws)
    requires Normalized(ws, maxLength, s).Ok?
    ensures var t := Normalized(ws, maxLength, s).value;
      Canonical(ws, t) && |t| <= |s| <= maxLength && WidthFixed(t)
  {
    var m := MapWidth(s);
    assert Normalized(ws, maxLength, s) == Ok(Collapse(ws, Strip(ws, m)));
    MapWidthNotBlank(ws, s);
    StripCollapseCanonical(ws, m);
    MapWidthFixed(s);
    CollapseStripFixed(ws, m);
  }

  /** Normalising twice is normalising once. */
  lemma NormalizedIdempotent(ws: SpaceClass, maxLength: nat, s: Text)
    requires ValidSpace(ws)
    requires Normalized(ws, maxLength, s).Ok?
    ensures Normalized(ws, maxLength, Normalized(ws, maxLength, s).value) == Normalized(ws, maxLength, s)
  {
    var t := Normalized(ws, maxLength, s).value;
    NormalizedShape(ws, maxLength, s);
    StripChars(ws, t);
    assert Strip(ws, t) == t;
    assert MapWidth(t) == t by {
      forall i | 0 <= i < |t|
        ensures MapWidth(t)[i] == t[i]
      {
        assert t[i] in t;
      }
    }
    CollapseFixed(ws, t);
  }

  /** Normalisation keeps every visible character of the converted text, in order. */
  lemma NormalizedKeepsText(ws: SpaceClass, maxLength: nat, s: Text)
    requires ws(32)
    requires Normalized(ws, maxLength, s).Ok?
    ensures RemoveSpace(ws, Normalized(ws, maxLength, s).value) == RemoveSpace(ws, MapWidth(s))
  {
    var m := MapWidth(s);
    var st := Strip(ws, m);
    assert Normalized(ws, maxLength, s).value == Collapse(ws, st);
    StripKeepsText(ws, m);
    CollapseKeepsText(ws, st);
  }

  /** The body of `format_string`: the checks, then the conversion loop that
      appends one converted code point per input code point, then strip and
      collapse. The blank check `not string.strip()` is written as "every
      character is whitespace", which is what `Strip` returning the empty text
      means by its contract. */
  method FormatString(ws: SpaceClass, maxLength: nat, s: Text) returns (r: Result<Text>)
    ensures r == Normalized(ws, maxLength, s)
  {
    if AllSpace(ws, s) {
      return Err(ZeroLength);
    }
    if |s| > maxLength {
      return Err(MaxLength(|s|));
    }
    var half: Text := [];
    for i := 0 to |s|
      invariant |half| == i
      invariant forall k :: 0 <= k < i ==> half[k] == HalfWidth(s[k])
    {
      var code := s[i];
      if code == 12288 {
        code := 32;
      } else if 65296 <= code <= 65305 || 65313 <= code <= 65339 {
        code := code - 65248;
      }
      assert code == HalfWidth(s[i]);
      half := half + [code];
    }
    MapWidthUnique(s, half);
    r := Ok(Collapse(ws, Strip(ws, half)));
  }
}
