/** `tag2words`: rebuilding words from one tag per character. */
module TagDecoder {
  import opened Base

  /** The tagging scheme: Begin, Middle, End, Single and the break marker X. */
  datatype Tag = B | M | E | S | X

  /** The tags that close the word being built. */
  predicate Closes(t: Tag) {
    t == S || t == E || t == X
  }

  /** The words the decoding loop emits, continuing from a partly built
      `word`: each character joins the word, and a closing tag emits it; a
      non-empty word left at the end is emitted too. */
  function Group(text: Text, tags: seq<Tag>, word: Text): seq<Text>
    requires |tags| >= |text|
    decreases |text|
  {
    if text == [] then (if word == [] then [] else [word])
    else
      var w := word + [text[0]];
      if Closes(tags[0]) then [w] + Group(text[1..], tags[1..], [])
      else Group(text[1..], tags[1..], w)
  }

  /** The grouped words are non-empty and together are the partial word
      followed by the text. */
  lemma {:induction false} GroupWords(text: Text, tags: seq<Tag>, word: Text)
    requires |tags| >= |text|
    ensures Concat(Group(text, tags, word)) == word + text
    ensures forall i :: 0 <= i < |Group(text, tags, word)| ==> Group(text, tags, word)[i] != []
    decreases |text|
  {
    if text == [] {
      if word != [] {
        assert Concat([word]) == word + Concat([]);
      }
      assert word + text == word;
    } else {
      var w := word + [text[0]];
      var rest := text[1..];
      assert w + rest == word + text;
      if Closes(tags[0]) {
        var g := Group(rest, tags[1..], []);
        GroupWords(rest, tags[1..], []);
        assert Group(text, tags, word) == [w] + g;
        assert ([w] + g)[1..] == g;
        assert Concat([w] + g) == w + Concat(g);
        assert [] + rest == rest;
      } else {
        GroupWords(rest, tags[1..], w);
        assert Group(text, tags, word) == Group(rest, tags[1..], w);
      }
    }
  }

  /** `' '.join(words)`. */
  function JoinSpace(words: seq<Text>): Text {
    if words == [] then []
    else if |words| == 1 then words[0]
    else words[0] + [32] + JoinSpace(words[1..])
  }

  /** `regex.split(r'\s+', s)`, continuing from a partly read `piece`: every
      maximal whitespace run ends a piece, so whitespace at either end of the
      text yields an empty piece there, and an empty text yields one empty piece. */
  function SplitFrom(ws: SpaceClass, s: Text, piece: Text): seq<Text>
    decreases |s|
  {
    if s == [] then [piece]
    else if ws(s[0]) then [piece] + SplitFrom(ws, TrimLeft(ws, s), [])
    else SplitFrom(ws, s[1..], piece + [s[0]])
  }

  function SplitSpace(ws: SpaceClass, s: Text): seq<Text> {
    SplitFrom(ws, s, [])
  }

  /** The value of `tag2words`: reading a tag past the end of the tag row
      raises IndexError; otherwise the grouped words are joined with spaces
      and split again on whitespace. */
  function Decode(ws: SpaceClass, text: Text, tags: seq<Tag>): Result<seq<Text>> {
    if |tags| < |text| then Err(IndexError)
    else Ok(SplitSpace(ws, JoinSpace(Group(text, tags, []))))
  }

  /** Every word is free of whitespace. */
  predicate AllNoSpace(ws: SpaceClass, words: seq<Text>) {
    forall i :: 0 <= i < |words| ==> words[i] != [] && NoSpace(ws, words[i])
  }

  /** One flag per character: true at the last character of each word. */
  function Ends(words: seq<Text>): (r: seq<bool>)
    ensures |r| == |Concat(words)|
  {
    if words == [] then [] else Marks(words[0]) + Ends(words[1..])
  }

  function Marks(w: Text): (r: seq<bool>)
    ensures |r| == |w|
  {
    seq(|w|, j => j == |w| - 1)
  }

  lemma {:induction false} JoinKeepsText(ws: SpaceClass, words: seq<Text>)
    requires ws(32)
    ensures RemoveSpace(ws, JoinSpace(words)) == RemoveSpace(ws, Concat(words))
  {
    if |words| == 1 {
      assert Concat(words) == words[0] + Concat([]);
      assert words[0] + [] == words[0];
    } else if |words| > 1 {
      var rest := words[1..];
      JoinKeepsText(ws, rest);
      RemoveSpaceAppend(ws, words[0] + [32], JoinSpace(rest));
      RemoveSpaceAppend(ws, words[0], [32]);
      RemoveSpaceAppend(ws, words[0], Concat(rest));
    }
  }

  /** Joining non-empty words keeps the first and the last character. */
  lemma {:induction false} JoinEnds(words: seq<Text>)
    requires words != []
    requires forall i :: 0 <= i < |words| ==> words[i] != []
    ensures var j, c := JoinSpace(words), Concat(words);
      j != [] && c != [] && j[0] == c[0] && j[|j| - 1] == c[|c| - 1]
  {
    var w := words[0];
    if |words| == 1 {
      assert Concat(words) == w + Concat([]);
      assert w + [] == w;
    } else {
      var rest := words[1..];
      JoinEnds(rest);
      var c := Concat(words);
      assert c == w + Concat(rest);
    }
  }

  /** Splitting a text that ends on a visible character, from a visible
      start, gives non-empty whitespace-free pieces that together hold the
      text's visible characters. */
  lemma {:induction false} SplitPieces(ws: SpaceClass, s: Text, piece: Text)
    requires NoSpace(ws, piece)
    requires s == [] || !ws(s[|s| - 1])
    requires piece != [] || (s != [] && !ws(s[0]))
    ensures AllNoSpace(ws, SplitFrom(ws, s, piece))
    ensures Concat(SplitFrom(ws, s, piece)) == piece + RemoveSpace(ws, s)
    decreases |s|, 1
  {
    if s == [] {
      assert Concat([piece]) == piece + Concat([]);
    } else if ws(s[0]) {
      SplitPiecesAtSpace(ws, s, piece);
    } else {
      var p := piece + [s[0]];
      assert NoSpace(ws, p) by {
        forall i | 0 <= i < |p|
          ensures !ws(p[i])
        {
          if i < |piece| {
            assert p[i] == piece[i];
          }
        }
      }
      SplitPieces(ws, s[1..], p);
      assert SplitFrom(ws, s, piece) == SplitFrom(ws, s[1..], p);
      assert RemoveSpace(ws, s) == [s[0]] + RemoveSpace(ws, s[1..]);
    }
  }

  lemma {:induction false} SplitPiecesAtSpace(ws: SpaceClass, s: Text, piece: Text)
    requires NoSpace(ws, piece) && piece != []
    requires s != [] && ws(s[0]) && !ws(s[|s| - 1])
    ensures AllNoSpace(ws, SplitFrom(ws, s, piece))
    ensures Concat(SplitFrom(ws, s, piece)) == piece + RemoveSpace(ws, s)
    decreases |s|, 0
  {
    var l := TrimLeft(ws, s);
    var rest := SplitFrom(ws, l, []);
    assert SplitFrom(ws, s, piece) == [piece] + rest;
    assert AllNoSpace(ws, rest) && Concat(rest) == RemoveSpace(ws, s) by {
      TrimLeftSuffix(ws, s);
      TrimLeftDrops(ws, s);
      assert l != [] && l[|l| - 1] == s[|s| - 1];
      SplitPieces(ws, l, []);
      TrimLeftKeepsText(ws, s);
    }
    AllNoSpaceCons(ws, piece, rest);
    assert Concat([piece] + rest) == piece + Concat(rest);
  }

  lemma AllNoSpaceCons(ws: SpaceClass, w: Text, words: seq<Text>)
    requires w != [] && NoSpace(ws, w) && AllNoSpace(ws, words)
    ensures AllNoSpace(ws, [w] + words)
  {
    var r := [w] + words;
    forall i | 0 <= i < |r|
      ensures r[i] != [] && NoSpace(ws, r[i])
    {
      if i > 0 {
        assert r[i] == words[i - 1];
      }
    }
  }

  /** Reading a whitespace-free stretch only extends the current piece. */
  lemma {:induction false} SplitFromAppend(ws: SpaceClass, w: Text, rest: Text, piece: Text)
    requires NoSpace(ws, w)
    ensures SplitFrom(ws, w + rest, piece) == SplitFrom(ws, rest, piece + w)
    decreases |w|
  {
    if w == [] {
      assert w + rest == rest && piece + w == piece;
    } else {
      assert (w + rest)[1..] == w[1..] + rest;
      SplitFromAppend(ws, w[1..], rest, piece + [w[0]]);
      assert piece + [w[0]] + w[1..] == piece + w;
    }
  }

  /** Splitting undoes joining, for non-empty whitespace-free words. */
  lemma {:induction false} SplitJoin(ws: SpaceClass, words: seq<Text>)
    requires ws(32)
    requires words != [] && AllNoSpace(ws, words)
    ensures SplitSpace(ws, JoinSpace(words)) == words
  {
    var w := words[0];
    if |words| == 1 {
      SplitFromAppend(ws, w, [], []);
      assert w + [] == w && [] + w == w;
    } else {
      var rest := words[1..];
      var j := JoinSpace(rest);
      JoinEnds(rest);
      assert j[0] == rest[0][0] by {
        assert Concat(rest) == rest[0] + Concat(rest[1..]);
      }
      SplitJoin(ws, rest);
      assert JoinSpace(words) == w + ([32] + j);
      SplitFromAppend(ws, w, [32] + j, []);
      assert [] + w == w;
      assert TrimLeft(ws, [32] + j) == j;
      assert SplitFrom(ws, [32] + j, w) == [w] + SplitFrom(ws, j, []);
    }
  }

  /** Words of a whitespace-free concatenation are whitespace-free. */
  lemma {:induction false} ConcatNoSpace(ws: SpaceClass, words: seq<Text>)
    requires NoSpace(ws, Concat(words))
    requires forall i :: 0 <= i < |words| ==> words[i] != []
    ensures AllNoSpace(ws, words)
  {
    if words != [] {
      var c := Concat(words);
      assert c == words[0] + Concat(words[1..]);
      assert NoSpace(ws, Concat(words[1..])) by {
        forall i | 0 <= i < |Concat(words[1..])|
          ensures !ws(Concat(words[1..])[i])
        {
          assert Concat(words[1..])[i] == c[|words[0]| + i];
        }
      }
      ConcatNoSpace(ws, words[1..]);
      assert NoSpace(ws, words[0]) by {
        forall i | 0 <= i < |words[0]|
          ensures !ws(words[0][i])
        {
          assert words[0][i] == c[i];
        }
      }
    }
  }

  /** Joining non-empty words whose concatenation has visible ends and
      splitting again gives non-empty whitespace-free words that hold the
      visible characters of the concatenation. */
  lemma SplitJoinKeepsText(ws: SpaceClass, words: seq<Text>)
    requires ws(32)
    requires words != [] && forall i :: 0 <= i < |words| ==> words[i] != []
    requires var c := Concat(words); !ws(c[0]) && !ws(c[|c| - 1])
    ensures AllNoSpace(ws, SplitSpace(ws, JoinSpace(words)))
    ensures Concat(SplitSpace(ws, JoinSpace(words))) == RemoveSpace(ws, Concat(words))
  {
    var j := JoinSpace(words);
    assert j != [] && !ws(j[0]) && !ws(j[|j| - 1]) by {
      JoinEnds(words);
    }
    assert RemoveSpace(ws, j) == RemoveSpace(ws, Concat(words)) by {
      JoinKeepsText(ws, words);
    }
    SplitPieces(ws, j, []);
    assert [] + RemoveSpace(ws, j) == RemoveSpace(ws, j);
  }

  /** Character preservation: for a text with visible ends and enough tags,
      every word is non-empty and whitespace-free, and the words together
      are the text with its whitespace removed. */
  lemma DecodeKeepsText(ws: SpaceClass, text: Text, tags: seq<Tag>)
    requires ws(32)
    requires text != [] && !ws(text[0]) && !ws(text[|text| - 1])
    requires |tags| >= |text|
    ensures Decode(ws, text, tags).Ok?
    ensures AllNoSpace(ws, Decode(ws, text, tags).value)
    ensures Concat(Decode(ws, text, tags).value) == RemoveSpace(ws, text)
  {
    var words := Group(text, tags, []);
    GroupWords(text, tags, []);
    assert Concat(words) == text by {
      assert [] + text == text;
    }
    SplitJoinKeepsText(ws, words);
  }

  /** Boundary placement for a whitespace-free text: a word ends at position
      i exactly when tag i closes a word or i is the last position. */
  lemma {:induction false} GroupEnds(text: Text, tags: seq<Tag>, word: Text)
    requires text != [] && |tags| >= |text|
    ensures var e := Ends(Group(text, tags, word));
      && |e| == |word| + |text|
      && (forall i :: 0 <= i < |word| ==> !e[i])
      && (forall i :: 0 <= i < |text| ==> e[|word| + i] == (Closes(tags[i]) || i == |text| - 1))
    decreases |text|
  {
    var w := word + [text[0]];
    var rest := text[1..];
    if Closes(tags[0]) {
      var tail := Group(rest, tags[1..], []);
      assert Group(text, tags, word) == [w] + tail;
      assert ([w] + tail)[1..] == tail;
      var e := Ends([w] + tail);
      assert e == Marks(w) + Ends(tail);
      if rest != [] {
        GroupEnds(rest, tags[1..], []);
        forall i | 0 < i < |text|
          ensures e[|word| + i] == (Closes(tags[i]) || i == |text| - 1)
        {
          assert e[|word| + i] == Ends(tail)[i - 1];
          assert tags[1..][i - 1] == tags[i];
        }
      } else {
        assert tail == [];
      }
    } else if rest != [] {
      GroupEnds(rest, tags[1..], w);
      assert Group(text, tags, word) == Group(rest, tags[1..], w);
      var e := Ends(Group(rest, tags[1..], w));
      assert |e| == |word| + |text|;
      forall i | 0 <= i < |word|
        ensures !e[i]
      {
      }
      forall i | 0 <= i < |text|
        ensures e[|word| + i] == (Closes(tags[i]) || i == |text| - 1)
      {
        if i > 0 {
          assert |word| + i == |w| + (i - 1);
          assert tags[1..][i - 1] == tags[i];
        }
      }
    } else {
      assert Group(text, tags, word) == [w];
      assert Ends([w]) == Marks(w) + Ends([]);
    }
  }

  /** For a whitespace-free text the second pass changes nothing: the words
      are the grouped ones, they rebuild the text, and a word ends after
      position i exactly when tag i is S, E or X or i is the last position. */
  lemma DecodeBoundaries(ws: SpaceClass, text: Text, tags: seq<Tag>)
    requires ws(32)
    requires text != [] && NoSpace(ws, text)
    requires |tags| >= |text|
    ensures Decode(ws, text, tags) == Ok(Group(text, tags, []))
    ensures var words := Decode(ws, text, tags).value;
      && Concat(words) == text
      && |Ends(words)| == |text|
      && forall i :: 0 <= i < |text| ==> Ends(words)[i] == (Closes(tags[i]) || i == |text| - 1)
  {
    var words := Group(text, tags, []);
    GroupWords(text, tags, []);
    assert [] + text == text;
    ConcatNoSpace(ws, words);
    SplitJoin(ws, words);
    GroupEnds(text, tags, []);
  }

  /** Tags beyond the text's length are never read. */
  lemma {:induction false} GroupIgnoresExtraTags(text: Text, tags: seq<Tag>, tags': seq<Tag>, word: Text)
    requires |tags| >= |text| && |tags'| >= |text|
    requires tags[..|text|] == tags'[..|text|]
    ensures Group(text, tags, word) == Group(text, tags', word)
    decreases |text|
  {
    if text != [] {
      assert tags[0] == tags[..|text|][0] == tags'[0];
      assert tags[1..][..|text| - 1] == tags[..|text|][1..];
      assert tags'[1..][..|text| - 1] == tags'[..|text|][1..];
      var w := word + [text[0]];
      GroupIgnoresExtraTags(text[1..], tags[1..], tags'[1..], []);
      GroupIgnoresExtraTags(text[1..], tags[1..], tags'[1..], w);
    }
  }

  /** Decoding depends only on the first |text| tags. */
  lemma DecodeIgnoresExtraTags(ws: SpaceClass, text: Text, tags: seq<Tag>, tags': seq<Tag>)
    requires |tags| >= |text| && |tags'| >= |text|
    requires tags[..|text|] == tags'[..|text|]
    ensures Decode(ws, text, tags) == Decode(ws, text, tags')
  {
    GroupIgnoresExtraTags(text, tags, tags', []);
  }

  /** A one-character visible text decodes to exactly that one word, whatever its tag. */
  lemma DecodeSingle(ws: SpaceClass, c: CodePoint, tags: seq<Tag>)
    requires !ws(c) && |tags| >= 1
    ensures Decode(ws, [c], tags) == Ok([[c]])
  {
    assert Group([c], tags, []) == [[c]] by {
      assert [c][1..] == [];
      assert [] + [c] == [c];
    }
    assert SplitFrom(ws, [c], []) == SplitFrom(ws, [], [c]) by {
      assert [c][1..] == [];
      assert [] + [c] == [c];
    }
  }

  /* ---------------- whitespace ends a word ---------------- */

  /** What `' '.join` puts after a word that closes at tag t. */
  function Gap(t: Tag): Text {
    if Closes(t) then [32] else []
  }

  lemma JoinCons(w: Text, words: seq<Text>)
    ensures JoinSpace([w] + words) == if words == [] then w else w + [32] + JoinSpace(words)
  {
    assert ([w] + words)[0] == w;
    assert ([w] + words)[1..] == words;
  }

  lemma GroupNonEmpty(text: Text, tags: seq<Tag>, word: Text)
    requires |tags| >= |text| && word + text != []
    ensures Group(text, tags, word) != []
  {
    GroupWords(text, tags, word);
  }

  /** A partial word carried into the grouping heads the joined result. */
  lemma {:induction false} JoinGroupPrefix(text: Text, tags: seq<Tag>, word: Text)
    requires text != [] && |tags| >= |text|
    ensures JoinSpace(Group(text, tags, word)) == word + JoinSpace(Group(text, tags, []))
    decreases |text|
  {
    var c, rest, t1 := text[0], text[1..], tags[1..];
    var w := word + [c];
    assert [] + [c] == [c];
    if Closes(tags[0]) {
      var g := Group(rest, t1, []);
      JoinCons(w, g);
      JoinCons([c], g);
    } else if rest == [] {
      assert Group(text, tags, word) == [w];
      assert Group(text, tags, []) == [[c]];
    } else {
      JoinGroupPrefix(rest, t1, w);
      JoinGroupPrefix(rest, t1, [c]);
      assert w + JoinSpace(Group(rest, t1, [])) == word + ([c] + JoinSpace(Group(rest, t1, [])));
    }
  }

  /** Grouping a text in two parts: the joined groups of the first part, a
      space exactly when the first part's last tag closes a word, and the
      joined groups of the second part read with its own tags. */
  lemma {:induction false} JoinGroupAppend(a: Text, r: Text, tags: seq<Tag>, word: Text)
    requires a != [] && r != [] && |tags| >= |a| + |r|
    ensures JoinSpace(Group(a + r, tags, word))
      == JoinSpace(Group(a, tags, word)) + Gap(tags[|a| - 1]) + JoinSpace(Group(r, tags[|a|..], []))
    decreases |a|
  {
    var c, t1 := a[0], tags[1..];
    var w := word + [c];
    assert (a + r)[0] == c && (a + r)[1..] == a[1..] + r;
    var jr := JoinSpace(Group(r, tags[|a|..], []));
    if a[1..] == [] {
      assert a[1..] + r == r;
      assert tags[|a|..] == t1;
      if Closes(tags[0]) {
        assert Group(a, tags, word) == [w] + Group(a[1..], t1, []);
        assert Group(a, tags, word) == [w];
        GroupNonEmpty(r, t1, []);
        JoinCons(w, Group(r, t1, []));
      } else {
        assert Group(a, tags, word) == [w];
        JoinGroupPrefix(r, t1, w);
      }
    } else {
      assert t1[|a| - 2] == tags[|a| - 1];
      assert t1[|a| - 1..] == tags[|a|..];
      if Closes(tags[0]) {
        var ga, gar := Group(a[1..], t1, []), Group(a[1..] + r, t1, []);
        JoinGroupAppend(a[1..], r, t1, []);
        assert [] + a[1..] == a[1..];
        GroupNonEmpty(a[1..] + r, t1, []);
        GroupNonEmpty(a[1..], t1, []);
        JoinCons(w, gar);
        JoinCons(w, ga);
        assert JoinSpace(Group(a + r, tags, word)) == w + [32] + JoinSpace(gar);
        assert JoinSpace(Group(a, tags, word)) == w + [32] + JoinSpace(ga);
      } else {
        JoinGroupAppend(a[1..], r, t1, w);
      }
    }
  }

  lemma {:induction false} AllSpaceAppend(ws: SpaceClass, a: Text, b: Text)
    ensures AllSpace(ws, a + b) <==> AllSpace(ws, a) && AllSpace(ws, b)
  {
    if AllSpace(ws, a + b) {
      assert forall i :: 0 <= i < |a| ==> a[i] == (a + b)[i];
      assert forall i :: 0 <= i < |b| ==> b[i] == (a + b)[|a| + i];
    }
  }

  /** Joining words that hold only whitespace gives only whitespace. */
  lemma {:induction false} JoinAllSpace(ws: SpaceClass, words: seq<Text>)
    requires ws(32)
    requires AllSpace(ws, Concat(words))
    ensures AllSpace(ws, JoinSpace(words))
    decreases |words|
  {
    if words != [] {
      var rest := words[1..];
      AllSpaceAppend(ws, words[0], Concat(rest));
      JoinAllSpace(ws, rest);
      if rest != [] {
        AllSpaceAppend(ws, words[0], [32]);
        AllSpaceAppend(ws, words[0] + [32], JoinSpace(rest));
      }
    }
  }

  /** `lstrip` of a text that ends visibly leaves whatever follows untouched. */
  lemma {:induction false} TrimLeftAppend(ws: SpaceClass, x: Text, z: Text)
    requires x != [] && !ws(x[|x| - 1])
    ensures TrimLeft(ws, x + z) == TrimLeft(ws, x) + z
    decreases |x|
  {
    assert (x + z)[0] == x[0];
    if ws(x[0]) {
      assert (x + z)[1..] == x[1..] + z;
      TrimLeftAppend(ws, x[1..], z);
    }
  }

  lemma {:induction false} TrimLeftSpaces(ws: SpaceClass, s: Text, y: Text)
    requires AllSpace(ws, s) && (y == [] || !ws(y[0]))
    ensures TrimLeft(ws, s + y) == y
    decreases |s|
  {
    if s == [] {
      assert s + y == y;
    } else {
      assert (s + y)[0] == s[0] && (s + y)[1..] == s[1..] + y;
      TrimLeftSpaces(ws, s[1..], y);
    }
  }

  /** `lstrip` of a text with leading whitespace that ends visibly is
      shorter and ends on the same character. */
  lemma TrimLeftKeepsEnd(ws: SpaceClass, x: Text)
    requires x != [] && ws(x[0]) && !ws(x[|x| - 1])
    ensures var x' := TrimLeft(ws, x);
      x' != [] && |x'| < |x| && x'[|x'| - 1] == x[|x| - 1]
  {
    var x' := TrimLeft(ws, x);
    assert x' == TrimLeft(ws, x[1..]);
    TrimLeftSuffix(ws, x);
    TrimLeftDrops(ws, x);
  }

  /** A whitespace-free text is a single piece. */
  lemma SplitNoSpace(ws: SpaceClass, a: Text)
    requires NoSpace(ws, a)
    ensures SplitSpace(ws, a) == [a]
  {
    SplitFromAppend(ws, a, [], []);
    assert a + [] == a && [] + a == a;
  }

  /** A whitespace run between two visible characters separates the pieces:
      the split of the whole is the split of the part before the run
      followed by the split of the part after it. With SplitNoSpace this
      makes the pieces of a text with visible ends exactly its maximal
      whitespace-free runs, in order. */
  lemma {:induction false} SplitAcross(ws: SpaceClass, x: Text, s: Text, y: Text, piece: Text)
    requires x != [] && !ws(x[|x| - 1])
    requires s != [] && AllSpace(ws, s)
    requires y != [] && !ws(y[0])
    ensures SplitFrom(ws, x + s + y, piece) == SplitFrom(ws, x, piece) + SplitSpace(ws, y)
    decreases |x|
  {
    var t := x + s + y;
    assert t[0] == x[0];
    assert t == x + (s + y);
    if ws(x[0]) {
      TrimLeftAppend(ws, x, s + y);
      var x' := TrimLeft(ws, x);
      TrimLeftKeepsEnd(ws, x);
      SplitAcross(ws, x', s, y, []);
      assert x' + (s + y) == x' + s + y;
    } else if |x| == 1 {
      assert t[1..] == s + y;
      assert x[1..] == [];
      assert (s + y)[0] == s[0];
      TrimLeftSpaces(ws, s, y);
    } else {
      assert t[1..] == x[1..] + s + y;
      SplitAcross(ws, x[1..], s, y, piece + [x[0]]);
    }
  }

  /** The joined groups of a non-empty text start and end with the text's own
      first and last characters. */
  lemma JoinGroupEnds(text: Text, tags: seq<Tag>)
    requires text != [] && |tags| >= |text|
    ensures var j := JoinSpace(Group(text, tags, []));
      j != [] && j[0] == text[0] && j[|j| - 1] == text[|text| - 1]
  {
    assert [] + text == text;
    GroupWords(text, tags, []);
    GroupNonEmpty(text, tags, []);
    JoinEnds(Group(text, tags, []));
  }

  /** The joined groups of a whitespace run, with the gaps around them, are
      non-empty whitespace. */
  lemma GapsAroundSpaces(ws: SpaceClass, s: Text, tags: seq<Tag>, before: Tag)
    requires ws(32)
    requires s != [] && AllSpace(ws, s) && |tags| >= |s|
    ensures var mid := Gap(before) + JoinSpace(Group(s, tags, [])) + Gap(tags[|s| - 1]);
      mid != [] && AllSpace(ws, mid)
  {
    var gs := Group(s, tags, []);
    var js := JoinSpace(gs);
    assert [] + s == s;
    GroupWords(s, tags, []);
    JoinAllSpace(ws, gs);
    JoinGroupEnds(s, tags);
    AllSpaceAppend(ws, Gap(before), js);
    AllSpaceAppend(ws, Gap(before) + js, Gap(tags[|s| - 1]));
  }

  lemma Regroup(j: Text, k: Text, x: Text, g1: Text, y: Text, g2: Text, z: Text)
    requires j == x + g1 + k && k == y + g2 + z
    ensures j == x + (g1 + y + g2) + z
  {
  }

  /** Around a whitespace run the joined groups are those of the two sides
      with only whitespace, and at least one character of it, between them. */
  lemma JoinAround(ws: SpaceClass, a: Text, s: Text, b: Text, tags: seq<Tag>) returns (mid: Text)
    requires ws(32)
    requires a != [] && s != [] && AllSpace(ws, s) && b != []
    requires |tags| >= |a| + |s| + |b|
    ensures mid != [] && AllSpace(ws, mid)
    ensures JoinSpace(Group(a + s + b, tags, []))
      == JoinSpace(Group(a, tags, [])) + mid + JoinSpace(Group(b, tags[|a| + |s|..], []))
  {
    var t1, tb := tags[|a|..], tags[|a| + |s|..];
    assert a + s + b == a + (s + b);
    assert t1[|s|..] == tb;
    JoinGroupAppend(a, s + b, tags, []);
    JoinGroupAppend(s, b, t1, []);
    mid := Gap(tags[|a| - 1]) + JoinSpace(Group(s, t1, [])) + Gap(t1[|s| - 1]);
    Regroup(JoinSpace(Group(a + s + b, tags, [])), JoinSpace(Group(s + b, t1, [])),
      JoinSpace(Group(a, tags, [])), Gap(tags[|a| - 1]), JoinSpace(Group(s, t1, [])), Gap(t1[|s| - 1]), JoinSpace(Group(b, tb, [])));
    GapsAroundSpaces(ws, s, t1, tags[|a| - 1]);
  }

  /** Whitespace between two visible characters always ends a word: decoding
      the text around a whitespace run gives the words of the part before it
      followed by the words of the part after it, each decoded with its own
      tags, whatever tag the model gave the run or its neighbours. */
  lemma DecodeAcross(ws: SpaceClass, a: Text, s: Text, b: Text, tags: seq<Tag>)
    requires ws(32)
    requires a != [] && !ws(a[|a| - 1])
    requires s != [] && AllSpace(ws, s)
    requires b != [] && !ws(b[0])
    requires |tags| >= |a| + |s| + |b|
    ensures Decode(ws, a + s + b, tags)
      == Ok(Decode(ws, a, tags[..|a|]).value + Decode(ws, b, tags[|a| + |s|..]).value)
  {
    var tb := tags[|a| + |s|..];
    var mid := JoinAround(ws, a, s, b, tags);
    var ja, jb := JoinSpace(Group(a, tags, [])), JoinSpace(Group(b, tb, []));
    JoinGroupEnds(a, tags);
    JoinGroupEnds(b, tb);
    SplitAcross(ws, ja, mid, jb, []);
    GroupIgnoresExtraTags(a, tags, tags[..|a|], []);
  }

  /** The words can be cut into consecutive groups, one per run, each group
      spelling its run. */
  ghost predicate Refines(words: seq<Text>, runs: seq<Text>) {
    exists parts: seq<seq<Text>> ::
      && Concat(parts) == words
      && |parts| == |runs|
      && forall i :: 0 <= i < |parts| ==> Concat(parts[i]) == runs[i]
  }

  lemma RefinesCons(first: seq<Text>, run: Text, words: seq<Text>, runs: seq<Text>)
    requires Concat(first) == run && Refines(words, runs)
    ensures Refines(first + words, [run] + runs)
  {
    var pb: seq<seq<Text>> :| && Concat(pb) == words
              && |pb| == |runs|
              && forall k :: 0 <= k < |pb| ==> Concat(pb[k]) == runs[k];
    var parts := [first] + pb;
    assert parts[1..] == pb;
    assert Concat(parts) == first + Concat(pb);
    forall k | 0 <= k < |parts|
      ensures Concat(parts[k]) == ([run] + runs)[k]
    {
      if k > 0 {
        assert parts[k] == pb[k - 1];
      }
    }
  }

  /** The first whitespace character of a text that has one. */
  lemma {:induction false} FirstSpace(ws: SpaceClass, t: Text) returns (i: nat)
    requires !NoSpace(ws, t)
    ensures i < |t| && ws(t[i]) && NoSpace(ws, t[..i])
    decreases |t|
  {
    var j :| 0 <= j < |t| && ws(t[j]);
    if ws(t[0]) {
      i := 0;
    } else {
      assert t[1..][j - 1] == t[j];
      var k := FirstSpace(ws, t[1..]);
      i := k + 1;
      assert t[..i] == [t[0]] + t[1..][..k];
    }
  }

  /** A text with visible ends and some whitespace is its first run, the
      whitespace after it, and a shorter rest with visible ends. */
  lemma FirstRun(ws: SpaceClass, t: Text) returns (a: Text, s: Text, b: Text)
    requires t != [] && !ws(t[0]) && !ws(t[|t| - 1]) && !NoSpace(ws, t)
    ensures t == a + s + b
    ensures a != [] && NoSpace(ws, a)
    ensures s != [] && AllSpace(ws, s)
    ensures b != [] && !ws(b[0]) && !ws(b[|b| - 1])
  {
    var i := FirstSpace(ws, t);
    var rest := t[i..];
    b := TrimLeft(ws, rest);
    assert b == TrimLeft(ws, rest[1..]);
    TrimLeftSuffix(ws, rest);
    TrimLeftDrops(ws, rest);
    assert b != [];
    var j := i + (|rest| - |b|);
    a, s := t[..i], t[i..j];
    assert b == t[j..];
    assert t == a + s + b;
    forall k | 0 <= k < |s|
      ensures ws(s[k])
    {
      assert s[k] == rest[k];
    }
    assert b[|b| - 1] == t[|t| - 1];
  }

  /** No word crosses whitespace: for a text with visible ends the decoded
      words, read in order, fall into consecutive groups that spell exactly
      the text's whitespace-separated runs. */
  lemma {:induction false} DecodeRefinesRuns(ws: SpaceClass, t: Text, tags: seq<Tag>)
    requires ws(32)
    requires t != [] && !ws(t[0]) && !ws(t[|t| - 1])
    requires |tags| >= |t|
    ensures Decode(ws, t, tags).Ok?
    ensures Refines(Decode(ws, t, tags).value, SplitSpace(ws, t))
    decreases |t|
  {
    if NoSpace(ws, t) {
      DecodeBoundaries(ws, t, tags);
      SplitNoSpace(ws, t);
      var words := Decode(ws, t, tags).value;
      RefinesCons(words, t, [], []);
      assert words + [] == words && [t] + [] == [t];
      assert Refines([], []) by {
        assert Concat<Text>([]) == [];
      }
    } else {
      var a, s, b := FirstRun(ws, t);
      var tb := tags[|a| + |s|..];
      DecodeAcross(ws, a, s, b, tags);
      DecodeBoundaries(ws, a, tags[..|a|]);
      DecodeRefinesRuns(ws, b, tb);
      SplitAcross(ws, a, s, b, []);
      SplitNoSpace(ws, a);
      RefinesCons(Decode(ws, a, tags[..|a|]).value, a, Decode(ws, b, tb).value, SplitSpace(ws, b));
    }
  }

  /** The body of `tag2words`: a running word buffer and a list of finished
      words, then the join and the split. */
  method Tag2Words(ws: SpaceClass, text: Text, tags: seq<Tag>) returns (r: Result<seq<Text>>)
    ensures r == Decode(ws, text, tags)
  {
    var words: seq<Text> := [];
    var word: Text := [];
    for idx := 0 to |text|
      invariant idx <= |tags|
      invariant |tags| >= |text| ==> words + Group(text[idx..], tags[idx..], word) == Group(text, tags, [])
    {
      word := word + [text[idx]];
      if idx >= |tags| {
        return Err(IndexError);
      }
      var tag := tags[idx];
      assert text[idx..][1..] == text[idx + 1..] && tags[idx..][1..] == tags[idx + 1..];
      if tag == S || tag == E || tag == X {
        words := words + [word];
        word := [];
      }
    }
    assert Group(text[|text|..], tags[|text|..], word) == if word == [] then [] else [word];
    if word != [] {
      words := words + [word];
    }
    assert words == Group(text, tags, []);
    return Ok(SplitSpace(ws, JoinSpace(words)));
  }
}
