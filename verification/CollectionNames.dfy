/**
 Names of vector collections and aliases: rtfc_{kb}_{build}, with the build number
 zero-padded to eight digits. The reconciler reads the build number back from the name.
 */
module CollectionNames {
  import opened Text

  const BUILD_WIDTH := 8
  const PREFIX := "rtfc_"

  /** The knowledge-base id with hyphens removed, in lower case. */
  function Clean(kb: string): (r: string)
    ensures '-' !in r
  {
    if kb == "" then ""
    else if kb[0] == '-' then Clean(kb[1..])
    else [LowerChar(kb[0])] + Clean(kb[1..])
  }

  /** The sign, when there is one, counts towards the width. */
  function BuildField(build: int): (s: string)
    ensures s != "" && '_' !in s
  {
    if build < 0 then "-" + Padded(-build, BUILD_WIDTH - 1) else Padded(build, BUILD_WIDTH)
  }

  function CollectionName(kb: string, build: int): string {
    PREFIX + Clean(kb) + "_" + BuildField(build)
  }

  function AliasName(kb: string): string {
    PREFIX + Clean(kb)
  }

  /** Cleaning works letter by letter: hyphens go, capitals are lowered, the rest stays. */
  lemma {:induction false} CleanByLetter(kb: string, c: char, rest: string)
    ensures Clean("") == "" && Clean(kb + [c] + rest) == Clean(kb) + (if c == '-' then "" else Lower([c])) + Clean(rest)
  {
    if kb == "" {
      assert kb + [c] + rest == [c] + rest && ([c] + rest)[1..] == rest;
    } else {
      assert (kb + [c] + rest)[1..] == kb[1..] + [c] + rest;
      CleanByLetter(kb[1..], c, rest);
    }
  }

  /** A knowledge base's alias and its first collection, as documented. */
  lemma NamesAreSpelled(kb: string)
    ensures AliasName(kb) == "rtfc_" + Clean(kb)
    ensures CollectionName(kb, 7) == AliasName(kb) + "_00000007"
  {
    assert |Digits(7)| == 1;
    assert Zeros(7) == "0000000";
  }

  // ----- reading the build number back -----

  function AfterLastUnderscore(s: string): (r: string)
    ensures '_' !in r
  {
    if s == "" then ""
    else if '_' in s then AfterLastUnderscore(s[1..])
    else s
  }

  /** The integer a text denotes, or 0 when it denotes none. */
  function IntOrZero(s: string): int {
    if s != "" && s[0] == '-' && AllDigits(s[1..]) then 0 - Value(s[1..])
    else if AllDigits(s) then Value(s)
    else 0
  }

  function ParseBuildId(name: string): int {
    IntOrZero(AfterLastUnderscore(name))
  }

  lemma {:induction false} AfterLastUnderscoreOf(x: string, y: string)
    requires '_' !in y
    ensures AfterLastUnderscore(x + "_" + y) == y
  {
    var s := x + "_" + y;
    assert s[|x|] == '_';
    if x == "" {
      assert s[1..] == y;
      AfterSelf(y);
    } else {
      assert s[1..] == x[1..] + "_" + y;
      AfterLastUnderscoreOf(x[1..], y);
    }
  }

  lemma AfterSelf(y: string)
    requires '_' !in y
    ensures AfterLastUnderscore(y) == y
  {
  }

  lemma IntOfNegative(digits: string)
    requires AllDigits(digits)
    ensures IntOrZero("-" + digits) == 0 - Value(digits)
  {
    assert ("-" + digits)[1..] == digits;
  }

  lemma IntOfDigits(digits: string)
    requires AllDigits(digits) && digits != ""
    ensures IntOrZero(digits) == Value(digits)
  {
    assert IsDigit(digits[0]);
  }

  lemma BuildFieldValue(build: int)
    ensures IntOrZero(BuildField(build)) == build
  {
    if build < 0 {
      ValueOfPadded(-build, BUILD_WIDTH - 1);
      IntOfNegative(Padded(-build, BUILD_WIDTH - 1));
    } else {
      ValueOfPadded(build, BUILD_WIDTH);
      IntOfDigits(Padded(build, BUILD_WIDTH));
    }
  }

  /** The build number survives the trip through the name, whatever characters the kb part has. */
  lemma BuildIdRoundTrip(kb: string, build: int)
    ensures ParseBuildId(CollectionName(kb, build)) == build
  {
    AfterLastUnderscoreOf(PREFIX + Clean(kb), BuildField(build));
    BuildFieldValue(build);
  }

  /** Two builds share a collection name exactly when cleaned kb and build number agree. */
  lemma NameInjective(kb1: string, build1: int, kb2: string, build2: int)
    ensures CollectionName(kb1, build1) == CollectionName(kb2, build2)
       <==> Clean(kb1) == Clean(kb2) && build1 == build2
  {
    if CollectionName(kb1, build1) == CollectionName(kb2, build2) {
      var p1, p2 := PREFIX + Clean(kb1), PREFIX + Clean(kb2);
      SplitAtLast(p1, BuildField(build1), p2, BuildField(build2), '_');
      BuildFieldValue(build1);
      BuildFieldValue(build2);
      assert p1[|PREFIX|..] == Clean(kb1) && p2[|PREFIX|..] == Clean(kb2);
    }
  }

  // ----- aliases and collections share one namespace -----

  lemma {:induction false} CleanIsLower(kb: string)
    ensures forall c | c in Clean(kb) :: c != '-' && LowerChar(c) == c
  {
    if kb != "" {
      CleanIsLower(kb[1..]);
    }
  }

  lemma {:induction false} CleanKeepsLower(s: string)
    requires forall c | c in s :: c != '-' && LowerChar(c) == c
    ensures Clean(s) == s
  {
    if s != "" {
      assert s[0] in s && forall c | c in s[1..] :: c in s;
      CleanKeepsLower(s[1..]);
    }
  }

  lemma {:induction false} BeforeLastUnderscore(s: string) returns (n: nat)
    requires '_' in s
    ensures n < |s| && s == s[..n] + "_" + AfterLastUnderscore(s)
  {
    if '_' in s[1..] {
      var m := BeforeLastUnderscore(s[1..]);
      n := m + 1;
      assert s[..n] == [s[0]] + s[1..][..m];
    } else {
      n := 0;
      AfterSelf(s[1..]);
    }
  }

  /** Whether what follows the last underscore is the field of a build number. */
  predicate EndsInBuildField(s: string) {
    '_' in s && BuildField(ParseBuildId(s)) == AfterLastUnderscore(s)
  }

  lemma JoinEndsInBuildField(x: string, build: int)
    ensures EndsInBuildField(x + "_" + BuildField(build))
  {
    var joined := x + "_" + BuildField(build);
    assert joined[|x|] == '_';
    AfterLastUnderscoreOf(x, BuildField(build));
    BuildFieldValue(build);
  }

  lemma SamePrefix(prefix: string, x: string, y1: string, y2: string, y3: string)
    requires prefix + x == prefix + y1 + y2 + y3
    ensures x == y1 + y2 + y3
  {
    assert prefix + y1 + y2 + y3 == prefix + (y1 + y2 + y3);
    assert (prefix + x)[|prefix|..] == x && (prefix + (y1 + y2 + y3))[|prefix|..] == y1 + y2 + y3;
  }

  lemma CollectionEndsInBuildField(kb: string, other: string, build: int)
    requires AliasName(kb) == CollectionName(other, build)
    ensures EndsInBuildField(Clean(kb))
  {
    SamePrefix(PREFIX, Clean(kb), Clean(other), "_", BuildField(build));
    JoinEndsInBuildField(Clean(other), build);
  }

  lemma BuildFieldNamesACollection(kb: string) returns (other: string)
    requires EndsInBuildField(Clean(kb))
    ensures AliasName(kb) == CollectionName(other, ParseBuildId(Clean(kb)))
  {
    var cleaned := Clean(kb);
    var n := BeforeLastUnderscore(cleaned);
    other := cleaned[..n];
    CleanIsLower(kb);
    assert forall c | c in other :: c in cleaned;
    CleanKeepsLower(other);
    assert PREFIX + (other + "_" + AfterLastUnderscore(cleaned)) == PREFIX + other + "_" + AfterLastUnderscore(cleaned);
  }

  /** An alias is some collection's name exactly when its cleaned kb id ends in an underscore and a build field. */
  lemma AliasNamesACollectionExactly(kb: string)
    ensures (exists other: string, build: int :: AliasName(kb) == CollectionName(other, build))
       <==> EndsInBuildField(Clean(kb))
  {
    if EndsInBuildField(Clean(kb)) {
      var other := BuildFieldNamesACollection(kb);
    } else {
      forall other: string, build: int
        ensures AliasName(kb) != CollectionName(other, build)
      {
        if AliasName(kb) == CollectionName(other, build) {
          CollectionEndsInBuildField(kb, other, build);
        }
      }
    }
  }

  // ----- string order -----

  predicate LexLess(s: string, t: string) {
    t != "" && (s == "" || s[0] < t[0] || (s[0] == t[0] && LexLess(s[1..], t[1..])))
  }

  lemma {:induction false} LexLessSnoc(s: string, a: char, t: string, b: char)
    requires |s| == |t|
    ensures LexLess(s + [a], t + [b]) <==> LexLess(s, t) || (s == t && a < b)
  {
    var u, v := s + [a], t + [b];
    if s != "" {
      assert u[1..] == s[1..] + [a] && v[1..] == t[1..] + [b];
      LexLessSnoc(s[1..], a, t[1..], b);
      assert s == [s[0]] + s[1..] && t == [t[0]] + t[1..];
    } else {
      assert u[1..] == "" && v[1..] == "";
    }
  }

  /** On numerals of one length, string order and equality are numeric order and equality. */
  lemma {:induction false} LexIsNumeric(s: string, t: string)
    requires |s| == |t| && AllDigits(s) && AllDigits(t)
    ensures LexLess(s, t) <==> Value(s) < Value(t)
    ensures s == t <==> Value(s) == Value(t)
  {
    if s != "" {
      var n := |s| - 1;
      LexIsNumeric(s[..n], t[..n]);
      assert s == s[..n] + [s[n]] && t == t[..n] + [t[n]];
      LexLessSnoc(s[..n], s[n], t[..n], t[n]);
    }
  }

  /** Comparing a string with a longer one only looks at the longer one's head of equal length. */
  lemma {:induction false} LexLessPrefix(s: string, t: string)
    requires |s| < |t|
    ensures LexLess(s, t) <==> s == t[..|s|] || LexLess(s, t[..|s|])
  {
    if s != "" {
      LexLessPrefix(s[1..], t[1..]);
      assert t[..|s|][1..] == t[1..][..|s| - 1];
      assert s == [s[0]] + s[1..] && t[..|s|] == [t[0]] + t[1..][..|s| - 1];
    }
  }

  lemma {:induction false} LexLessCommonHead(p: string, s: string, t: string)
    ensures LexLess(p + s, p + t) <==> LexLess(s, t)
  {
    if p == "" {
      assert p + s == s && p + t == t;
    } else {
      assert (p + s)[1..] == p[1..] + s && (p + t)[1..] == p[1..] + t;
      LexLessCommonHead(p[1..], s, t);
    }
  }

  lemma {:induction false} DigitsLengthMonotone(b: nat, c: nat)
    requires b <= c
    ensures |Digits(b)| <= |Digits(c)|
  {
    if b >= 10 {
      DigitsLengthMonotone(b / 10, c / 10);
    }
  }

  /**
   For one knowledge base and b < c, the names sort like the build numbers exactly when b is
   at most the number formed by as many leading digits of c's field as b's field has.
   */
  lemma NameOrderExact(kb: string, b: nat, c: nat)
    requires b < c
    ensures |BuildField(b)| <= |BuildField(c)|
    ensures LexLess(CollectionName(kb, b), CollectionName(kb, c))
       <==> b <= Value(BuildField(c)[..|BuildField(b)|])
  {
    DigitsLengthMonotone(b, c);
    var s, t := BuildField(b), BuildField(c);
    ValueOfPadded(b, BUILD_WIDTH);
    ValueOfPadded(c, BUILD_WIDTH);
    LexLessCommonHead(PREFIX + Clean(kb) + "_", s, t);
    LexIsNumeric(s, t[..|s|]);
    if |s| < |t| {
      LexLessPrefix(s, t);
    } else {
      assert t[..|s|] == t;
    }
  }

  lemma EightDigits(n: nat)
    requires n < 100_000_000
    ensures |Digits(n)| <= BUILD_WIDTH
  {
    DigitsLengthMonotone(n, 99_999_999);
    assert |Digits(99)| == 2;
    assert |Digits(9_999)| == 4;
    assert |Digits(999_999)| == 6;
    assert |Digits(99_999_999)| == 8;
  }

  /** Below ten to the eighth, sorting names sorts builds. */
  lemma NameOrderIsBuildOrder(kb: string, b: nat, c: nat)
    requires b < 100_000_000 && c < 100_000_000
    ensures LexLess(CollectionName(kb, b), CollectionName(kb, c)) <==> b < c
  {
    EightDigits(b);
    EightDigits(c);
    ValueOfPadded(b, BUILD_WIDTH);
    ValueOfPadded(c, BUILD_WIDTH);
    LexLessCommonHead(PREFIX + Clean(kb) + "_", BuildField(b), BuildField(c));
    LexIsNumeric(BuildField(b), BuildField(c));
  }

  /** The ninth digit breaks the order: build 99999999 does not sort before build 100000000. */
  lemma NameOrderBreaksAtNineDigits(kb: string)
    ensures !LexLess(CollectionName(kb, 99_999_999), CollectionName(kb, 100_000_000))
  {
    EightDigits(99_999_999);
    EightDigits(10_000_000);
    DigitsLengthMonotone(10_000_000, 99_999_999);
    var head := Digits(10_000_000);
    assert |head| == 8 by {
      assert |Digits(10)| == 2;
      assert |Digits(1_000)| == 4;
      assert |Digits(100_000)| == 6;
    }
    assert Digits(100_000_000) == head + [DigitChar(0)];
    assert BuildField(100_000_000)[..8] == head;
    ValueOfDigits(10_000_000);
    NameOrderExact(kb, 99_999_999, 100_000_000);
  }
}
