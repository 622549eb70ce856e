/** The handful of Go string-library operations the bot relies on
    (strings.Split with a one-character separator, strings.Index,
    strings.Contains, strings.Replace of spaces, strconv.Atoi), as
    functions on seq<char>. */
module Text {
  import opened Common

  /** strings.Split(s, string(sep)): the pieces between separators, in order. */
  function Split(s: string, sep: char): (r: seq<string>)
    ensures |r| >= 1
    decreases |s|
  {
    if s == [] then [""]
    else
      var rest := Split(s[1..], sep);
      if s[0] == sep then [""] + rest
      else [[s[0]] + rest[0]] + rest[1..]
  }

  /** No piece contains the separator; there is one piece exactly when the
      separator does not occur; and a text that does not start with the
      separator has a first piece that starts with the text's first character. */
  lemma {:induction false} SplitPieces(s: string, sep: char)
    ensures var r := Split(s, sep);
      && (forall i :: 0 <= i < |r| ==> sep !in r[i])
      && (sep !in s ==> r == [s])
      && (sep in s ==> |r| >= 2)
      && (|s| > 0 && s[0] != sep ==> |r[0]| > 0 && r[0][0] == s[0])
    decreases |s|
  {
    if s != [] {
      var rest := Split(s[1..], sep);
      SplitPieces(s[1..], sep);
      assert s == [s[0]] + s[1..];
      if s[0] != sep {
        var r := [[s[0]] + rest[0]] + rest[1..];
        assert Split(s, sep) == r;
        forall i | 0 <= i < |r| ensures sep !in r[i] {
          if i > 0 {
            assert r[i] == rest[i];
          }
        }
      } else {
        var r := [""] + rest;
        forall i | 0 <= i < |r| ensures sep !in r[i] {
          if i > 0 {
            assert r[i] == rest[i - 1];
          }
        }
      }
    }
  }

  /** Every character of a piece comes from the text. */
  lemma {:induction false} SplitFromText(s: string, sep: char)
    ensures forall i, c :: 0 <= i < |Split(s, sep)| && c in Split(s, sep)[i] ==> c in s
    decreases |s|
  {
    if s != [] {
      SplitFromText(s[1..], sep);
      assert s == [s[0]] + s[1..];
    }
  }

  /** strings.Join(pieces, string(sep)). */
  function Join(pieces: seq<string>, sep: char): string
    requires |pieces| >= 1
    decreases |pieces|
  {
    if |pieces| == 1 then pieces[0]
    else pieces[0] + [sep] + Join(pieces[1..], sep)
  }

  lemma JoinCons(head: string, rest: seq<string>, sep: char)
    requires |rest| >= 1
    ensures Join([head] + rest, sep) == head + [sep] + Join(rest, sep)
  {
    assert ([head] + rest)[1..] == rest;
  }

  /** Joining the pieces again gives back the original text. */
  lemma {:induction false} JoinSplit(s: string, sep: char)
    ensures Join(Split(s, sep), sep) == s
    decreases |s|
  {
    if s != [] {
      var rest := Split(s[1..], sep);
      JoinSplit(s[1..], sep);
      if s[0] == sep {
        calc {
          Join(Split(s, sep), sep);
          Join([""] + rest, sep);
          { JoinCons("", rest, sep); }
          [sep] + Join(rest, sep);
          { assert s == [s[0]] + s[1..]; }
          s;
        }
      } else {
        var r := [[s[0]] + rest[0]] + rest[1..];
        calc {
          Join(Split(s, sep), sep);
          Join(r, sep);
          { JoinIntoFirst([s[0]], rest, sep); }
          [s[0]] + Join(rest, sep);
          { assert s == [s[0]] + s[1..]; }
          s;
        }
      }
    }
  }

  /** Prefixing the first piece prefixes the joined text. */
  lemma JoinIntoFirst(c: string, rest: seq<string>, sep: char)
    requires |rest| >= 1
    ensures Join([c + rest[0]] + rest[1..], sep) == c + Join(rest, sep)
  {
    if |rest| > 1 {
      assert rest == [rest[0]] + rest[1..];
      JoinCons(c + rest[0], rest[1..], sep);
      JoinCons(rest[0], rest[1..], sep);
    }
  }

  /** The pieces of `[c] + t` from the pieces `r` of `t`: a separator starts
      a new empty piece, any other character joins the first piece. */
  function ConsPiece(c: char, r: seq<string>, sep: char): seq<string>
    requires |r| >= 1
  {
    if c == sep then [""] + r else [[c] + r[0]] + r[1..]
  }

  lemma SplitCons(c: char, t: string, sep: char)
    ensures Split([c] + t, sep) == ConsPiece(c, Split(t, sep), sep)
  {
    assert ([c] + t)[0] == c && ([c] + t)[1..] == t;
  }

  lemma ConsPieceAppend(c: char, ra: seq<string>, rb: seq<string>, sep: char)
    requires |ra| >= 1
    ensures ConsPiece(c, ra + rb, sep) == ConsPiece(c, ra, sep) + rb
  {
    if c != sep {
      assert (ra + rb)[0] == ra[0] && (ra + rb)[1..] == ra[1..] + rb;
    }
  }

  /** A separator splits the text into the pieces of its two sides. */
  lemma {:induction false} SplitAround(a: string, sep: char, b: string)
    ensures Split(a + [sep] + b, sep) == Split(a, sep) + Split(b, sep)
    decreases |a|
  {
    if a == [] {
      assert (a + [sep] + b)[1..] == b;
    } else {
      var t := a[1..] + [sep] + b;
      calc {
        Split(a + [sep] + b, sep);
        { assert a + [sep] + b == [a[0]] + t; SplitCons(a[0], t, sep); }
        ConsPiece(a[0], Split(t, sep), sep);
        { SplitAround(a[1..], sep, b); }
        ConsPiece(a[0], Split(a[1..], sep) + Split(b, sep), sep);
        { ConsPieceAppend(a[0], Split(a[1..], sep), Split(b, sep), sep); }
        ConsPiece(a[0], Split(a[1..], sep), sep) + Split(b, sep);
        { assert a == [a[0]] + a[1..]; SplitCons(a[0], a[1..], sep); }
        Split(a, sep) + Split(b, sep);
      }
    }
  }

  /** A piece without the separator, then the separator, comes first. */
  lemma SplitAfterPiece(a: string, sep: char, b: string)
    requires sep !in a
    ensures Split(a + [sep] + b, sep) == [a] + Split(b, sep)
  {
    SplitAround(a, sep, b);
    SplitPieces(a, sep);
  }

  /** Splitting pieces that were joined gives back the pieces. */
  lemma {:induction false} SplitJoin(pieces: seq<string>, sep: char)
    requires |pieces| >= 1
    requires forall i :: 0 <= i < |pieces| ==> sep !in pieces[i]
    ensures Split(Join(pieces, sep), sep) == pieces
    decreases |pieces|
  {
    if |pieces| == 1 {
      SplitPieces(pieces[0], sep);
    } else {
      SplitJoin(pieces[1..], sep);
      SplitAround(pieces[0], sep, Join(pieces[1..], sep));
      SplitPieces(pieces[0], sep);
      assert pieces == [pieces[0]] + pieces[1..];
    }
  }

  /** t occurs in s starting at index i. */
  predicate OccursAt(s: string, t: string, i: int)
  {
    0 <= i && i + |t| <= |s| && s[i..i + |t|] == t
  }

  lemma OccursAtShift(s: string, t: string)
    requires s != []
    ensures forall j :: 1 <= j ==> (OccursAt(s, t, j) <==> OccursAt(s[1..], t, j - 1))
  {
    forall j | 1 <= j
      ensures OccursAt(s, t, j) <==> OccursAt(s[1..], t, j - 1)
    {
      if j + |t| <= |s| {
        assert s[1..][j - 1..j - 1 + |t|] == s[j..j + |t|];
      }
    }
  }

  /** strings.Index(s, t): the first index at which t occurs, or -1. */
  function IndexOf(s: string, t: string): (r: int)
    ensures -1 <= r <= |s|
    ensures r >= 0 ==> OccursAt(s, t, r)
    ensures forall j :: 0 <= j && (r < 0 || j < r) ==> !OccursAt(s, t, j)
    decreases |s|
  {
    if |s| < |t| then -1
    else if s[..|t|] == t then 0
    else
      var k := IndexOf(s[1..], t);
      OccursAtShift(s, t);
      if k < 0 then -1 else k + 1
  }

  /** strings.Contains(s, t). */
  predicate Contains(s: string, t: string)
  {
    IndexOf(s, t) >= 0
  }

  /** An occurrence of t at any index makes Contains hold. */
  lemma ContainsAt(s: string, t: string, i: int)
    requires OccursAt(s, t, i)
    ensures Contains(s, t)
  {
  }

  /** Whatever occurs in a suffix of s occurs in s. */
  lemma ContainsInSuffix(s: string, k: int, t: string)
    requires 0 <= k <= |s|
    requires Contains(s[k..], t)
    ensures Contains(s, t)
  {
    var i := IndexOf(s[k..], t);
    assert s[k..][i..i + |t|] == s[k + i..k + i + |t|];
    ContainsAt(s, t, k + i);
  }

  /** t occurs in any text that has it as an infix. */
  lemma ContainsInfix(a: string, t: string, b: string)
    ensures Contains(a + t + b, t)
  {
    var s := a + t + b;
    assert s[|a|..|a| + |t|] == t;
    ContainsAt(s, t, |a|);
  }

  /** strings.Replace(s, " ", "%20", -1). */
  function EscapeSpaces(s: string): (r: string)
    ensures ' ' !in r
    ensures ' ' !in s ==> r == s
    decreases |s|
  {
    if s == [] then []
    else (if s[0] == ' ' then "%20" else [s[0]]) + EscapeSpaces(s[1..])
  }

  /** Escaping works character by character ... */
  lemma {:induction false} EscapeSpacesConcat(a: string, b: string)
    ensures EscapeSpaces(a + b) == EscapeSpaces(a) + EscapeSpaces(b)
    decreases |a|
  {
    if a == [] {
      assert a + b == b;
    } else {
      var e := if a[0] == ' ' then "%20" else [a[0]];
      calc {
        EscapeSpaces(a + b);
        { assert (a + b)[0] == a[0] && (a + b)[1..] == a[1..] + b; }
        e + EscapeSpaces(a[1..] + b);
        { EscapeSpacesConcat(a[1..], b); }
        e + (EscapeSpaces(a[1..]) + EscapeSpaces(b));
        (e + EscapeSpaces(a[1..])) + EscapeSpaces(b);
      }
    }
  }

  /** ... a space becomes "%20" and every other character stays. */
  lemma EscapeSpacesChar(c: char)
    ensures EscapeSpaces([c]) == if c == ' ' then "%20" else [c]
  {
  }

  // ---------------------------------------------------------------------
  // Go's len on a string: its length in UTF-8 bytes

  /** The number of bytes UTF-8 uses for one code point. */
  function RuneLength(c: char): (n: nat)
    ensures 1 <= n <= 4
    ensures n == 1 <==> c as int < 0x80
  {
    if c as int < 0x80 then 1
    else if c as int < 0x800 then 2
    else if c as int < 0x1_0000 then 3
    else 4
  }

  function Utf8Length(s: string): (n: nat)
    decreases |s|
  {
    if s == [] then 0 else RuneLength(s[0]) + Utf8Length(s[1..])
  }

  /** A text has at least as many bytes as characters, and exactly as
      many when it is ASCII. */
  lemma {:induction false} Utf8LengthBounds(s: string)
    ensures |s| <= Utf8Length(s) <= 4 * |s|
    ensures (forall i :: 0 <= i < |s| ==> s[i] as int < 0x80) <==> Utf8Length(s) == |s|
    decreases |s|
  {
    if s != [] {
      Utf8LengthBounds(s[1..]);
      assert forall i :: 1 <= i < |s| ==> s[1..][i - 1] == s[i];
    }
  }

  /** "Ωx" is two characters but three bytes. */
  lemma Utf8LengthExample()
    ensures |"Ωx"| == 2 && Utf8Length("Ωx") == 3
  {
  }

  // ---------------------------------------------------------------------
  // strconv.Atoi on a 64-bit platform

  const MaxInt64: int := 0x7fff_ffff_ffff_ffff
  const MinInt64: int := -0x8000_0000_0000_0000

  predicate IsDigit(c: char)
  {
    '0' <= c <= '9'
  }

  predicate AllDigits(s: string)
  {
    forall i :: 0 <= i < |s| ==> IsDigit(s[i])
  }

  /** The value of a string of decimal digits. */
  function DigitsValue(s: string): nat
    requires AllDigits(s)
    decreases |s|
  {
    if s == [] then 0
    else DigitsValue(s[..|s| - 1]) * 10 + (s[|s| - 1] as int - '0' as int)
  }

  /** strconv.Atoi: an optional sign followed by at least one decimal digit,
      within the range of a 64-bit int; anything else is an error. */
  function Atoi(s: string): (r: Option<int>)
    ensures r.Some? ==> MinInt64 <= r.value <= MaxInt64
    ensures s == [] ==> r.None?
    ensures (exists i :: 0 <= i < |s| && !IsDigit(s[i]) && !(i == 0 && |s| > 1 && (s[0] == '+' || s[0] == '-')))
            ==> r.None?
    ensures |s| > 0 && AllDigits(s) ==> r == if DigitsValue(s) <= MaxInt64 then Some(DigitsValue(s)) else None
    ensures |s| > 1 && s[0] == '+' && AllDigits(s[1..]) ==> r == Atoi(s[1..])
    ensures |s| > 1 && s[0] == '-' && AllDigits(s[1..]) ==>
              r == if DigitsValue(s[1..]) <= -MinInt64 then Some(-(DigitsValue(s[1..]) as int)) else None
  {
    var signed := |s| > 0 && (s[0] == '+' || s[0] == '-');
    var digits := if signed then s[1..] else s;
    if digits == [] || !AllDigits(digits) then None
    else
      var v: int := if signed && s[0] == '-' then -(DigitsValue(digits) as int) else DigitsValue(digits);
      if MinInt64 <= v <= MaxInt64 then Some(v) else None
  }

  /** The decimal rendering of a natural number, without leading zeros. */
  function DecimalString(n: nat): (r: string)
    ensures |r| >= 1 && AllDigits(r)
    decreases n
  {
    if n < 10 then [('0' as int + n) as char]
    else DecimalString(n / 10) + [('0' as int + n % 10) as char]
  }

  lemma {:induction false} DecimalValue(n: nat)
    ensures DigitsValue(DecimalString(n)) == n
    decreases n
  {
    if n >= 10 {
      DecimalValue(n / 10);
      var d := DecimalString(n);
      assert d[..|d| - 1] == DecimalString(n / 10);
    }
  }

  /** Atoi reads back every in-range integer written in decimal. */
  lemma AtoiDecimal(n: int)
    requires MinInt64 <= n <= MaxInt64
    ensures n >= 0 ==> Atoi(DecimalString(n)) == Some(n)
    ensures n < 0 ==> Atoi("-" + DecimalString(-n)) == Some(n)
  {
    if n >= 0 {
      DecimalValue(n);
    } else {
      DecimalValue(-n);
      assert ("-" + DecimalString(-n))[1..] == DecimalString(-n);
    }
  }
}
