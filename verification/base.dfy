/** Values shared by every stage of the tokenizer: code points and texts,
    the abstract whitespace class, the typed errors and the dynamically typed
    inputs that `cut` and `batch_generator` inspect. */
module Base {

  /** A Python `str` is a sequence of code points; `ord` gives each one as an integer. */
  type CodePoint = c: int | 0 <= c < 0x11_0000
  type Text = seq<CodePoint>

  /** The characters that `str.strip`, the class `[\p{Z}\s]` and `\s` treat as
      whitespace. The exact Unicode tables are not modelled: any predicate that
      satisfies `ValidSpace` stands for them. */
  type SpaceClass = CodePoint -> bool

  /** What the model needs of the whitespace class: the ASCII space and the
      ideographic space are whitespace, and no half-width digit, Latin capital
      letter or '[' (the images of the full-width conversion) is. */
  ghost predicate ValidSpace(ws: SpaceClass) {
    && ws(32)
    && ws(12288)
    && forall c: CodePoint :: (48 <= c <= 57 || 65 <= c <= 91) ==> !ws(c)
  }

  predicate AllSpace(ws: SpaceClass, s: Text) {
    forall i :: 0 <= i < |s| ==> ws(s[i])
  }

  predicate NoSpace(ws: SpaceClass, s: Text) {
    forall i :: 0 <= i < |s| ==> !ws(s[i])
  }

  datatype Option<T> = None | Some(value: T)

  /** The exceptions the tokenizer raises, one constructor per exception class;
      `IndexError` is Python's, raised when a tag row is shorter than its text
      or a batch yields no result row. */
  datatype Error =
    | ZeroLength
    | MaxLength(length: nat)
    | ThreadNumber
    | UnSupported
    | IndexError

  datatype Result<T> = Ok(value: T) | Err(error: Error)

  /** The shapes of argument that `cut` and `batch_generator` tell apart with `isinstance`. */
  datatype Value =
    | Str(text: Text)
    | List(items: seq<Text>)
    | Tuple(items: seq<Text>)
    | Other

  function Min(a: int, b: int): int {
    if a <= b then a else b
  }

  /** `itertools.chain.from_iterable`, and `"".join` on a list of words. */
  function Concat<T>(xss: seq<seq<T>>): seq<T> {
    if xss == [] then [] else xss[0] + Concat(xss[1..])
  }

  lemma {:induction false} ConcatAppend<T>(a: seq<seq<T>>, b: seq<seq<T>>)
    ensures Concat(a + b) == Concat(a) + Concat(b)
  {
    if a == [] {
      assert a + b == b;
    } else {
      assert (a + b)[1..] == a[1..] + b;
      ConcatAppend(a[1..], b);
    }
  }

  /** The text with every whitespace character removed. */
  function RemoveSpace(ws: SpaceClass, s: Text): (r: Text)
    ensures |r| <= |s|
    ensures NoSpace(ws, r)
  {
    if s == [] then [] else (if ws(s[0]) then [] else [s[0]]) + RemoveSpace(ws, s[1..])
  }

  lemma {:induction false} RemoveSpaceAppend(ws: SpaceClass, a: Text, b: Text)
    ensures RemoveSpace(ws, a + b) == RemoveSpace(ws, a) + RemoveSpace(ws, b)
  {
    if a == [] {
      assert a + b == b;
    } else {
      assert (a + b)[1..] == a[1..] + b;
      RemoveSpaceAppend(ws, a[1..], b);
    }
  }

  lemma {:induction false} RemoveSpaceOfSpaces(ws: SpaceClass, s: Text)
    requires AllSpace(ws, s)
    ensures RemoveSpace(ws, s) == []
  {
    if s != [] {
      RemoveSpaceOfSpaces(ws, s[1..]);
    }
  }

  lemma {:induction false} RemoveSpaceOfNoSpace(ws: SpaceClass, s: Text)
    requires NoSpace(ws, s)
    ensures RemoveSpace(ws, s) == s
  {
    if s != [] {
      RemoveSpaceOfNoSpace(ws, s[1..]);
    }
  }

  /** `lstrip`: drops exactly the maximal run of leading whitespace. */
  function TrimLeft(ws: SpaceClass, s: Text): (r: Text)
    ensures |r| <= |s|
    ensures r == [] || !ws(r[0])
  {
    if s != [] && ws(s[0]) then TrimLeft(ws, s[1..]) else s
  }

  /** `rstrip`: drops exactly the maximal run of trailing whitespace. */
  function TrimRight(ws: SpaceClass, s: Text): (r: Text)
    ensures |r| <= |s|
    ensures r == [] || !ws(r[|r| - 1])
  {
    if s != [] && ws(s[|s| - 1]) then TrimRight(ws, s[..|s| - 1]) else s
  }

  /** `lstrip` keeps a suffix of its input. */
  lemma {:induction false} TrimLeftSuffix(ws: SpaceClass, s: Text)
    ensures TrimLeft(ws, s) == s[|s| - |TrimLeft(ws, s)|..]
  {
    if s != [] && ws(s[0]) {
      TrimLeftSuffix(ws, s[1..]);
      assert s[1..][|s| - 1 - |TrimLeft(ws, s[1..])|..] == s[|s| - |TrimLeft(ws, s)|..];
    }
  }

  /** `rstrip` keeps a prefix of its input. */
  lemma {:induction false} TrimRightPrefix(ws: SpaceClass, s: Text)
    ensures TrimRight(ws, s) == s[..|TrimRight(ws, s)|]
  {
    if s != [] && ws(s[|s| - 1]) {
      var t := s[..|s| - 1];
      TrimRightPrefix(ws, t);
      assert t[..|TrimRight(ws, t)|] == s[..|TrimRight(ws, s)|];
    }
  }

  /** What `lstrip` drops is whitespace. */
  lemma {:induction false} TrimLeftDrops(ws: SpaceClass, s: Text)
    ensures forall i :: 0 <= i < |s| - |TrimLeft(ws, s)| ==> ws(s[i])
  {
    if s != [] && ws(s[0]) {
      TrimLeftDrops(ws, s[1..]);
      forall i | 0 < i < |s| - |TrimLeft(ws, s)|
        ensures ws(s[i])
      {
        assert s[i] == s[1..][i - 1];
      }
    }
  }

  /** What `rstrip` drops is whitespace. */
  lemma {:induction false} TrimRightDrops(ws: SpaceClass, s: Text)
    ensures forall i :: |TrimRight(ws, s)| <= i < |s| ==> ws(s[i])
  {
    if s != [] && ws(s[|s| - 1]) {
      var t := s[..|s| - 1];
      TrimRightDrops(ws, t);
      forall i | |TrimRight(ws, s)| <= i < |s| - 1
        ensures ws(s[i])
      {
        assert s[i] == t[i];
      }
    }
  }

  /** `str.strip`. */
  function Strip(ws: SpaceClass, s: Text): (r: Text)
    ensures r == [] <==> AllSpace(ws, s)
    ensures r != [] ==> !ws(r[0]) && !ws(r[|r| - 1])
    ensures |r| <= |s|
  {
    var l := TrimLeft(ws, s);
    var r := TrimRight(ws, l);
    assert r != [] ==> r[0] == l[0] by {
      TrimRightPrefix(ws, l);
    }
    assert l == [] || !ws(s[|s| - |l|]) by {
      TrimLeftSuffix(ws, s);
    }
    assert r == [] ==> AllSpace(ws, s) by {
      if r == [] {
        TrimRightDrops(ws, l);
        assert l == [];
        TrimLeftDrops(ws, s);
      }
    }
    r
  }

  /** A text that is not blank strips to a non-empty text with visible ends. */
  lemma StripVisible(ws: SpaceClass, s: Text)
    requires !AllSpace(ws, s)
    ensures var r := Strip(ws, s); r != [] && !ws(r[0]) && !ws(r[|r| - 1])
  {
  }

  /** Stripping keeps only characters of its input, and leaves a text with
      visible ends unchanged. */
  lemma StripChars(ws: SpaceClass, s: Text)
    ensures forall c :: c in Strip(ws, s) ==> c in s
    ensures s != [] && !ws(s[0]) && !ws(s[|s| - 1]) ==> Strip(ws, s) == s
  {
    var l := TrimLeft(ws, s);
    TrimLeftSuffix(ws, s);
    TrimRightPrefix(ws, l);
    assert forall c :: c in TrimRight(ws, l) ==> c in l;
    assert forall c :: c in l ==> c in s;
  }

  lemma TrimLeftKeepsText(ws: SpaceClass, s: Text)
    ensures RemoveSpace(ws, TrimLeft(ws, s)) == RemoveSpace(ws, s)
  {
    var l := TrimLeft(ws, s);
    var p := s[..|s| - |l|];
    TrimLeftSuffix(ws, s);
    assert s == p + l;
    TrimLeftDrops(ws, s);
    assert AllSpace(ws, p);
    RemoveSpaceAppend(ws, p, l);
    RemoveSpaceOfSpaces(ws, p);
  }

  lemma TrimRightKeepsText(ws: SpaceClass, s: Text)
    ensures RemoveSpace(ws, TrimRight(ws, s)) == RemoveSpace(ws, s)
  {
    var r := TrimRight(ws, s);
    var q := s[|r|..];
    TrimRightPrefix(ws, s);
    assert s == r + q;
    TrimRightDrops(ws, s);
    assert AllSpace(ws, q);
    RemoveSpaceAppend(ws, r, q);
    RemoveSpaceOfSpaces(ws, q);
  }

  /** Stripping removes only whitespace. */
  lemma StripKeepsText(ws: SpaceClass, s: Text)
    ensures RemoveSpace(ws, Strip(ws, s)) == RemoveSpace(ws, s)
  {
    TrimLeftKeepsText(ws, s);
    TrimRightKeepsText(ws, TrimLeft(ws, s));
  }
}
