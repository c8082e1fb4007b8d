/**
 Keys of the query-embedding cache: the query text is normalised (whitespace runs collapsed,
 lower case), joined to the model identity with NUL characters, and hashed.
 Characters are compared in the ASCII range; the hash is a parameter.
 */
module CacheKeys {
  import opened Text

  const NUL: char := 0 as char

  predicate IsSpace(c: char) {
    9 <= c as int <= 13 || 28 <= c as int <= 32
  }

  predicate IsWord(w: string) {
    w != "" && forall i | 0 <= i < |w| :: !IsSpace(w[i])
  }

  predicate AreWords(ws: seq<string>) {
    forall i | 0 <= i < |ws| :: IsWord(ws[i])
  }

  /** The longest prefix without whitespace. */
  function WordPrefix(s: string): (w: string)
    ensures |w| <= |s| && w == s[..|w|] && forall i | 0 <= i < |w| :: !IsSpace(w[i])
    ensures s != "" && !IsSpace(s[0]) ==> w != ""
  {
    if s == "" || IsSpace(s[0]) then "" else [s[0]] + WordPrefix(s[1..])
  }

  /** The whitespace-separated words of a text. */
  function Words(s: string): (ws: seq<string>)
    ensures AreWords(ws)
    decreases |s|
  {
    if s == "" then []
    else if IsSpace(s[0]) then Words(s[1..])
    else [WordPrefix(s)] + Words(s[|WordPrefix(s)|..])
  }

  function JoinWords(ws: seq<string>): string {
    if ws == [] then "" else if |ws| == 1 then ws[0] else ws[0] + " " + JoinWords(ws[1..])
  }

  function Normalize(text: string): string {
    Lower(JoinWords(Words(text)))
  }

  lemma {:induction false} WordPrefixOf(w: string, rest: string)
    requires IsWord(w) && (rest == "" || IsSpace(rest[0]))
    ensures WordPrefix(w + rest) == w
  {
    assert (w + rest)[1..] == w[1..] + rest;
    if |w| > 1 {
      WordPrefixOf(w[1..], rest);
    } else {
      assert w[1..] + rest == rest;
    }
  }

  lemma {:induction false} WordsOfJoin(ws: seq<string>)
    requires AreWords(ws)
    ensures Words(JoinWords(ws)) == ws
  {
    if ws != [] {
      var s := JoinWords(ws);
      var rest := if |ws| == 1 then "" else " " + JoinWords(ws[1..]);
      assert s == ws[0] + rest;
      assert IsWord(ws[0]);
      WordPrefixOf(ws[0], rest);
      assert s[|ws[0]|..] == rest;
      assert !IsSpace(s[0]);
      if |ws| > 1 {
        WordsOfJoin(ws[1..]);
        assert rest[1..] == JoinWords(ws[1..]);
        assert Words(rest) == ws[1..];
      }
    }
  }

  lemma {:induction false} LowerOfJoin(ws: seq<string>)
    ensures Lower(JoinWords(ws)) == JoinWords(LowerWords(ws))
  {
    if |ws| > 1 {
      LowerOfJoin(ws[1..]);
      assert LowerWords(ws)[1..] == LowerWords(ws[1..]);
      assert Lower(ws[0] + " " + JoinWords(ws[1..])) == Lower(ws[0]) + " " + Lower(JoinWords(ws[1..]));
    }
  }

  lemma LowerWordsAreWords(ws: seq<string>)
    requires AreWords(ws)
    ensures AreWords(LowerWords(ws))
  {
    forall i | 0 <= i < |ws|
      ensures IsWord(LowerWords(ws)[i])
    {
      assert IsWord(ws[i]);
    }
  }

  /** Normalising keeps the words, in lower case, and nothing else. */
  lemma WordsOfNormalize(text: string)
    ensures Words(Normalize(text)) == LowerWords(Words(text))
  {
    var ws := Words(text);
    LowerOfJoin(ws);
    LowerWordsAreWords(ws);
    WordsOfJoin(LowerWords(ws));
  }

  lemma NormalizeIdempotent(text: string)
    ensures Normalize(Normalize(text)) == Normalize(text)
  {
    WordsOfNormalize(text);
    LowerOfJoin(Words(text));
    LowerOfJoin(LowerWords(Words(text)));
    assert LowerWords(LowerWords(Words(text))) == LowerWords(Words(text)) by {
      forall i | 0 <= i < |Words(text)|
        ensures Lower(Lower(Words(text)[i])) == Lower(Words(text)[i])
      {
        LowerIdempotent(Words(text)[i]);
      }
    }
  }

  /** Two texts normalise alike exactly when their words agree up to case. */
  lemma SameNormalForm(s: string, t: string)
    ensures Normalize(s) == Normalize(t) <==> LowerWords(Words(s)) == LowerWords(Words(t))
  {
    WordsOfNormalize(s);
    WordsOfNormalize(t);
    LowerOfJoin(Words(s));
    LowerOfJoin(Words(t));
  }

  /** The code points that separate words; one space takes their place, and none is left at the ends. */
  lemma SpacesSeparate(c: char)
    ensures Normalize("A" + [c, c] + "b") == "a b" <==> c as int in {9, 10, 11, 12, 13, 28, 29, 30, 31, 32}
    ensures Normalize([c] + "b" + [c]) == "b" <==> c as int in {9, 10, 11, 12, 13, 28, 29, 30, 31, 32}
  {
    var two, one := "A" + [c, c] + "b", [c] + "b" + [c];
    if IsSpace(c) {
      TwoWords(c);
      OneWord(c);
    } else {
      NoSpace(two);
      NoSpace(one);
      assert Normalize(two)[2] == LowerChar(c) && "a b"[2] == 'b';
      assert |Normalize(two)| == 4 && |"a b"| == 3;
      assert |Normalize(one)| == 3;
    }
  }

  lemma NoSpace(w: string)
    requires IsWord(w)
    ensures Normalize(w) == Lower(w)
  {
    WordPrefixOf(w, "");
    assert w + "" == w && w[|w|..] == "";
    assert Words(w) == [w];
  }

  lemma SkipSpace(c: char, rest: string)
    requires IsSpace(c)
    ensures Words([c] + rest) == Words(rest)
  {
    assert ([c] + rest)[1..] == rest;
  }

  lemma FirstWord(w: string, rest: string)
    requires IsWord(w) && (rest == "" || IsSpace(rest[0]))
    ensures Words(w + rest) == [w] + Words(rest)
  {
    WordPrefixOf(w, rest);
    assert (w + rest)[|w|..] == rest;
    assert !IsSpace((w + rest)[0]);
  }

  lemma TwoWords(c: char)
    requires IsSpace(c)
    ensures Normalize("A" + [c, c] + "b") == "a b"
  {
    var rest := [c] + ([c] + ("b" + ""));
    assert "A" + [c, c] + "b" == "A" + rest;
    FirstWord("A", rest);
    SkipSpace(c, [c] + ("b" + ""));
    SkipSpace(c, "b" + "");
    FirstWord("b", "");
    JoinOfTwo("A", "b");
  }

  lemma JoinOfTwo(x: string, y: string)
    ensures JoinWords([x] + ([y] + [])) == x + " " + y
  {
    assert ([x] + ([y] + []))[1..] == [y];
  }

  lemma OneWord(c: char)
    requires IsSpace(c)
    ensures Normalize([c] + "b" + [c]) == "b"
  {
    assert [c] + "b" + [c] == [c] + ("b" + ([c] + ""));
    SkipSpace(c, "b" + ([c] + ""));
    FirstWord("b", [c] + "");
    SkipSpace(c, "");
  }

  // ----- the key -----

  datatype CacheQuery = CacheQuery(modelId: string, dimensions: int, apiVersion: string, text: string)

  predicate NulFree(q: CacheQuery) {
    NUL !in q.modelId && NUL !in q.apiVersion
  }

  function RawKey(q: CacheQuery): string {
    q.modelId + [NUL] + (Render(q.dimensions) + [NUL] + (q.apiVersion + [NUL] + Normalize(q.text)))
  }

  function MakeCacheKey(hash: string -> string, q: CacheQuery): string {
    hash(RawKey(q))
  }

  /** The four components in their order, joined by NUL. */
  lemma ComponentsInOrder(q: CacheQuery)
    ensures var nul := [0 as char];
            RawKey(q) == q.modelId + nul + Render(q.dimensions) + nul + q.apiVersion + nul + Normalize(q.text)
  {
    var nul, last := [0 as char], Normalize(q.text);
    Associate(q.modelId + nul + Render(q.dimensions) + nul, q.apiVersion + nul, last);
    Associate(q.modelId + nul, Render(q.dimensions) + nul, q.apiVersion + nul + last);
  }

  lemma Associate(x: string, y: string, z: string)
    ensures x + y + z == x + (y + z)
  {
  }

  /** Queries with the same model, dimensions, API version and words. */
  predicate SameQuery(a: CacheQuery, b: CacheQuery) {
    && a.modelId == b.modelId && a.dimensions == b.dimensions && a.apiVersion == b.apiVersion
    && LowerWords(Words(a.text)) == LowerWords(Words(b.text))
  }

  /** The text that is hashed identifies model, dimensions, API version and the words of the query. */
  lemma RawKeyDistinguishes(a: CacheQuery, b: CacheQuery)
    requires NulFree(a) && NulFree(b)
    ensures RawKey(a) == RawKey(b) <==> SameQuery(a, b)
  {
    SameNormalForm(a.text, b.text);
    if RawKey(a) == RawKey(b) {
      var a2, b2 := a.apiVersion + [NUL] + Normalize(a.text), b.apiVersion + [NUL] + Normalize(b.text);
      SplitAtFirst(a.modelId, Render(a.dimensions) + [NUL] + a2, b.modelId, Render(b.dimensions) + [NUL] + b2, NUL);
      SplitAtFirst(Render(a.dimensions), a2, Render(b.dimensions), b2, NUL);
      RenderInjective(a.dimensions, b.dimensions);
      SplitAtFirst(a.apiVersion, Normalize(a.text), b.apiVersion, Normalize(b.text), NUL);
    }
  }

  /** The end of the hashed text: API version and normal form. */
  function KeyTail(q: CacheQuery): string {
    q.apiVersion + [NUL] + Normalize(q.text)
  }

  /** A NUL of the end that could as well be the joint: what follows it is a normal form. */
  predicate OtherJoint(q: CacheQuery, i: nat) {
    var tail := KeyTail(q);
    i < |tail| && tail[i] == NUL && i != |q.apiVersion| && Normalize(tail[i + 1..]) == tail[i + 1..]
  }

  lemma SameTail(a: CacheQuery, b: CacheQuery)
    requires NUL !in a.modelId && NUL !in b.modelId
    ensures RawKey(a) == RawKey(b)
       <==> a.modelId == b.modelId && a.dimensions == b.dimensions && KeyTail(a) == KeyTail(b)
  {
    if RawKey(a) == RawKey(b) {
      SplitAtFirst(a.modelId, Render(a.dimensions) + [NUL] + KeyTail(a),
                   b.modelId, Render(b.dimensions) + [NUL] + KeyTail(b), NUL);
      SplitAtFirst(Render(a.dimensions), KeyTail(a), Render(b.dimensions), KeyTail(b), NUL);
      RenderInjective(a.dimensions, b.dimensions);
    }
  }

  lemma SharedTailHasOtherJoint(a: CacheQuery, b: CacheQuery)
    requires KeyTail(a) == KeyTail(b) && forall i: nat :: !OtherJoint(a, i)
    ensures a.apiVersion == b.apiVersion && LowerWords(Words(a.text)) == LowerWords(Words(b.text))
  {
    var i := |b.apiVersion|;
    assert KeyTail(b)[i] == NUL && KeyTail(b)[i + 1..] == Normalize(b.text);
    NormalizeIdempotent(b.text);
    assert !OtherJoint(a, i);
    assert KeyTail(a)[..i] == a.apiVersion && KeyTail(b)[..i] == b.apiVersion;
    assert KeyTail(a)[i + 1..] == Normalize(a.text);
    SameNormalForm(a.text, b.text);
  }

  lemma MoveJoint(a: CacheQuery, i: nat) returns (b: CacheQuery)
    requires NUL !in a.modelId && OtherJoint(a, i)
    ensures NUL !in b.modelId && RawKey(b) == RawKey(a) && b.apiVersion != a.apiVersion
  {
    var tail := KeyTail(a);
    b := CacheQuery(a.modelId, a.dimensions, tail[..i], tail[i + 1..]);
    CutAt(tail, i);
    SameTail(a, b);
    assert |b.apiVersion| == i;
  }

  lemma CutAt(s: string, i: nat)
    requires i < |s| && s[i] == NUL
    ensures s[..i] + [NUL] + s[i + 1..] == s
  {
  }

  /**
   Among queries whose model ids are NUL-free, one shares its hashed text with no other if and only
   if no further NUL after the dimensions is followed by a normal form.
   */
  lemma RawKeyIsUniqueExactly(a: CacheQuery)
    requires NUL !in a.modelId
    ensures (forall b: CacheQuery | NUL !in b.modelId && RawKey(b) == RawKey(a) :: SameQuery(a, b))
       <==> forall i: nat :: !OtherJoint(a, i)
  {
    if i: nat :| OtherJoint(a, i) {
      var b := MoveJoint(a, i);
      assert !SameQuery(a, b);
    } else {
      forall b: CacheQuery | NUL !in b.modelId && RawKey(b) == RawKey(a)
        ensures SameQuery(a, b)
      {
        SameTail(a, b);
        SharedTailHasOtherJoint(a, b);
      }
    }
  }

  /** A NUL in the API version lets queries of different versions share a key. */
  lemma RawKeyCollidesOnNul()
    ensures exists a: CacheQuery, b: CacheQuery ::
      a.apiVersion != b.apiVersion && NUL !in a.modelId && NUL !in b.modelId && RawKey(a) == RawKey(b)
  {
    var a := CacheQuery("m", 1, ['x', NUL, 'y'], "z");
    var b := CacheQuery("m", 1, "x", ['y', NUL, 'z']);
    WordPrefixOf("z", "");
    WordPrefixOf(['y', NUL, 'z'], "");
    assert "z" + "" == "z" && ['y', NUL, 'z'] + "" == ['y', NUL, 'z'];
    assert Words("z") == ["z"] && Words(['y', NUL, 'z']) == [['y', NUL, 'z']];
    assert Normalize("z") == "z" && Normalize(['y', NUL, 'z']) == ['y', NUL, 'z'];
    assert a.apiVersion + [NUL] + "z" == b.apiVersion + [NUL] + ['y', NUL, 'z'];
    assert RawKey(a) == RawKey(b);
    assert a.apiVersion != b.apiVersion;
  }
}
