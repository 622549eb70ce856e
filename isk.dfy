/** The ISK value formatter: `reverse`, `insertNth` and `parseISKValue`
    (autbot.go:59-90). The model starts from the two-decimal string that
    strconv.FormatFloat(value, 'f', 2, 64) produces. */
module Isk {

  // ---------------------------------------------------------------------
  // Reference definitions

  /** The characters of s in reverse order. */
  function Reversed(s: string): string
  {
    seq(|s|, k requires 0 <= k < |s| => s[|s| - 1 - k])
  }

  /** s cut into groups of n characters from the left, with x between the
      groups: x follows every n-th character except the last one. */
  function Chunked(s: string, n: nat, x: char): string
    requires n >= 1
    decreases |s|
  {
    if |s| <= n then s else s[..n] + [x] + Chunked(s[n..], n, x)
  }

  /** d cut into groups of n characters counted from the right, with x
      between the groups: thousands grouping when n == 3. */
  function GroupedFromRight(d: string, n: nat, x: char): string
    requires n >= 1
    decreases |d|
  {
    if |d| <= n then d
    else GroupedFromRight(d[..|d| - n], n, x) + [x] + d[|d| - n..]
  }

  /** s with every x taken out. */
  function Without(s: string, x: char): string
    decreases |s|
  {
    if s == [] then [] else (if s[0] == x then [] else [s[0]]) + Without(s[1..], x)
  }

  // ---------------------------------------------------------------------
  // reverse (autbot.go:59-65): swaps a rune slice in place

  method Reverse(s: string) returns (r: string)
    ensures r == Reversed(s)
  {
    var chars := new char[|s|](k requires 0 <= k < |s| => s[k]);
    var i, j := 0, |s| - 1;
    while i < j
      invariant 0 <= i <= j + 1 && i + j == |s| - 1
      invariant forall k :: 0 <= k < i ==> chars[k] == s[|s| - 1 - k] && chars[|s| - 1 - k] == s[k]
      invariant forall k :: i <= k <= j ==> chars[k] == s[k]
    {
      chars[i], chars[j] := chars[j], chars[i];
      i, j := i + 1, j - 1;
    }
    forall k | 0 <= k < |s|
      ensures chars[k] == s[|s| - 1 - k]
    {
      if k > j {
        var m := |s| - 1 - k;
        assert 0 <= m < i;
      }
    }
    r := chars[..];
  }

  lemma ReversedLength(s: string)
    ensures |Reversed(s)| == |s|
  {
  }

  /** Reversing twice gives back the original. */
  lemma ReversedTwice(s: string)
    ensures Reversed(Reversed(s)) == s
  {
    assert forall k :: 0 <= k < |s| ==> Reversed(Reversed(s))[k] == s[k];
  }

  lemma ReversedConcat(a: string, b: string)
    ensures Reversed(a + b) == Reversed(b) + Reversed(a)
  {
    var l, r := Reversed(a + b), Reversed(b) + Reversed(a);
    assert |l| == |r|;
    forall k | 0 <= k < |l|
      ensures l[k] == r[k]
    {
      if k < |b| {
        assert l[k] == (a + b)[|a| + |b| - 1 - k] == b[|b| - 1 - k];
      } else {
        assert l[k] == (a + b)[|a| + |b| - 1 - k] == a[|a| - 1 - (k - |b|)];
      }
    }
  }

  /** Dropping k characters of the reversal drops the last k of the original. */
  lemma ReversedDrop(s: string, k: nat)
    requires k <= |s|
    ensures Reversed(s)[k..] == Reversed(s[..|s| - k])
  {
  }

  // ---------------------------------------------------------------------
  // Arithmetic helpers for the `i % n` test of insertNth

  lemma {:induction false} MulAtLeast(k: int, n: int)
    requires k >= 1 && n >= 1
    ensures k * n >= n
    decreases k
  {
    if k > 1 {
      MulAtLeast(k - 1, n);
      assert k * n == (k - 1) * n + n;
    }
  }

  lemma DivModUnique(a: int, n: int, q: int, r: int)
    requires n > 0 && 0 <= r < n && a == q * n + r
    ensures a / n == q && a % n == r
  {
    var q', r' := a / n, a % n;
    assert a == q' * n + r';
    if q' > q {
      assert (q' - q) * n == q' * n - q * n;
      MulAtLeast(q' - q, n);
    } else if q' < q {
      assert (q - q') * n == q * n - q' * n;
      MulAtLeast(q - q', n);
    }
  }

  lemma ModShift(m: int, n: int)
    requires 1 <= n <= m
    ensures (m - n) % n == m % n && (m - n) / n == m / n - 1
  {
    DivModUnique(m, n, (m - n) / n + 1, (m - n) % n);
  }

  lemma ModNext(i: nat, n: int)
    requires n >= 1
    ensures i % n == n - 1 <==> (i + 1) % n == 0
  {
    if i % n == n - 1 {
      DivModUnique(i + 1, n, i / n + 1, 0);
    } else {
      DivModUnique(i + 1, n, i / n, i % n + 1);
    }
  }

  // ---------------------------------------------------------------------
  // insertNth (autbot.go:67-78): writes to a buffer character by character

  /** Appending one character to the input of Chunked: when the input so far
      ends a full group, the separator comes before the new character. */
  lemma {:induction false} ChunkedSnoc(t: string, c: char, n: nat, x: char)
    requires n >= 1
    ensures Chunked(t + [c], n, x)
         == Chunked(t, n, x) + (if |t| > 0 && |t| % n == 0 then [x] else []) + [c]
    decreases |t|
  {
    if |t| < n {
      DivModUnique(|t|, n, 0, |t|);
    } else if |t| == n {
      DivModUnique(|t|, n, 1, 0);
      assert (t + [c])[..n] == t && (t + [c])[n..] == [c];
    } else {
      assert (t + [c])[..n] == t[..n] && (t + [c])[n..] == t[n..] + [c];
      ChunkedSnoc(t[n..], c, n, x);
      ModShift(|t|, n);
    }
  }

  method InsertNth(s: string, n: int, x: char) returns (r: string)
    requires n >= 1
    ensures r == Chunked(s, n, x)
  {
    var buffer: string := [];
    var n1 := n - 1;
    var l1 := |s| - 1;
    for i := 0 to |s|
      invariant buffer == Chunked(s[..i], n, x) + (if 0 < i < |s| && i % n == 0 then [x] else [])
    {
      ChunkedSnoc(s[..i], s[i], n, x);
      assert s[..i + 1] == s[..i] + [s[i]];
      ModNext(i, n);
      buffer := buffer + [s[i]];
      if i % n == n1 && i != l1 {
        buffer := buffer + [x];
      }
    }
    assert s[..|s|] == s;
    r := buffer;
  }

  /** For non-empty s, exactly (|s| - 1) / n separators are inserted. */
  lemma {:induction false} ChunkedLength(s: string, n: nat, x: char)
    requires n >= 1 && |s| > 0
    ensures |Chunked(s, n, x)| == |s| + (|s| - 1) / n
    decreases |s|
  {
    if |s| <= n {
      DivModUnique(|s| - 1, n, 0, |s| - 1);
    } else {
      ChunkedLength(s[n..], n, x);
      ModShift(|s| - 1, n);
    }
  }

  /** The output starts with the first character of s and ends with its last:
      no separator is written first or after the last character. */
  lemma {:induction false} ChunkedEnds(s: string, n: nat, x: char)
    requires n >= 1 && |s| > 0
    ensures |Chunked(s, n, x)| > 0
    ensures Chunked(s, n, x)[0] == s[0]
    ensures Chunked(s, n, x)[|Chunked(s, n, x)| - 1] == s[|s| - 1]
    decreases |s|
  {
    if |s| > n {
      ChunkedEnds(s[n..], n, x);
    }
  }

  lemma {:induction false} WithoutConcat(a: string, b: string, x: char)
    ensures Without(a + b, x) == Without(a, x) + Without(b, x)
    decreases |a|
  {
    if a != [] {
      assert (a + b)[0] == a[0] && (a + b)[1..] == a[1..] + b;
      WithoutConcat(a[1..], b, x);
      var h := if a[0] == x then [] else [a[0]];
      assert Without(a + b, x) == h + Without(a[1..] + b, x);
      assert Without(a, x) == h + Without(a[1..], x);
    } else {
      assert a + b == b;
    }
  }

  lemma {:induction false} WithoutAbsent(s: string, x: char)
    requires x !in s
    ensures Without(s, x) == s
    decreases |s|
  {
    if s != [] {
      WithoutAbsent(s[1..], x);
    }
  }

  /** Taking out a separator between a and an x-free b. */
  lemma {:induction false} WithoutAround(a: string, b: string, x: char)
    requires x !in b
    ensures Without(a + [x] + b, x) == Without(a, x) + b
  {
    var p := a + [x];
    calc {
      Without(p + b, x);
      { WithoutConcat(p, b, x); }
      Without(p, x) + Without(b, x);
      { WithoutAbsent(b, x); }
      Without(p, x) + b;
      { WithoutConcat(a, [x], x); WithoutOne(x); }
      Without(a, x) + b;
    }
  }

  lemma WithoutOne(x: char)
    ensures Without([x], x) == []
  {
    assert [x][0] == x && [x][1..] == [];
  }

  /** Removing every separator gives back the input. */
  lemma {:induction false} ChunkedWithout(s: string, n: nat, x: char)
    requires n >= 1 && x !in s
    ensures Without(Chunked(s, n, x), x) == s
    decreases |s|
  {
    if |s| <= n {
      WithoutAbsent(s, x);
    } else {
      var head, tail := s[..n], s[n..];
      assert s == head + tail;
      assert x !in head && x !in tail by {
        forall c | c in head ensures c in s { }
        forall c | c in tail ensures c in s { }
      }
      assert Without([x], x) == [];
      WithoutConcat(head + [x], Chunked(tail, n, x), x);
      WithoutConcat(head, [x], x);
      WithoutAbsent(head, x);
      ChunkedWithout(tail, n, x);
    }
  }

  // ---------------------------------------------------------------------
  // parseISKValue (autbot.go:80-90)

  /** Chunking the reversal and reversing back groups from the right. */
  lemma {:induction false} ReversedChunked(d: string, n: nat, x: char)
    requires n >= 1
    ensures Reversed(Chunked(Reversed(d), n, x)) == GroupedFromRight(d, n, x)
    decreases |d|
  {
    if |d| <= n {
      ReversedTwice(d);
    } else {
      var hi, lo := d[..|d| - n], d[|d| - n..];
      assert d == hi + lo;
      ReversedConcat(hi, lo);
      var rd := Reversed(d);
      assert rd[..n] == Reversed(lo) && rd[n..] == Reversed(hi);
      ReversedConcat(Reversed(lo) + [x], Chunked(Reversed(hi), n, x));
      ReversedConcat(Reversed(lo), [x]);
      ReversedTwice(lo);
      ReversedChunked(hi, n, x);
    }
  }

  /** The formatter keeps the last dotOffset characters (".dd") as they are
      and groups the integer part in threes from the right, with spaces. */
  method ParseIskValue(formatted: string, dotOffset: int) returns (r: string)
    requires 0 <= dotOffset <= |formatted|
    ensures r == GroupedFromRight(formatted[..|formatted| - dotOffset], 3, ' ')
                 + formatted[|formatted| - dotOffset..]
  {
    var tmp := Reverse(formatted);
    var grouped := InsertNth(tmp[dotOffset..], 3, ' ');
    tmp := Reverse(grouped);
    var retStr := formatted;
    r := tmp + retStr[|retStr| - dotOffset..];
    ReversedDrop(formatted, dotOffset);
    ReversedChunked(formatted[..|formatted| - dotOffset], 3, ' ');
  }

  /** Grouping from the right inserts (|d| - 1) / n separators ... */
  lemma GroupedLength(d: string, n: nat, x: char)
    requires n >= 1 && |d| > 0
    ensures |GroupedFromRight(d, n, x)| == |d| + (|d| - 1) / n
  {
    ReversedChunked(d, n, x);
    ChunkedLength(Reversed(d), n, x);
  }

  /** ... and removing them gives back the digits. */
  lemma {:induction false} GroupedWithout(d: string, n: nat, x: char)
    requires n >= 1 && x !in d
    ensures Without(GroupedFromRight(d, n, x), x) == d
    decreases |d|
  {
    if |d| <= n {
      WithoutAbsent(d, x);
    } else {
      var hi, lo := d[..|d| - n], d[|d| - n..];
      assert d == hi + lo;
      GroupedWithout(hi, n, x);
      WithoutAround(GroupedFromRight(hi, n, x), lo, x);
    }
  }

  /** The worked example: 1234567.89 is rendered as 1 234 567.89. */
  lemma ExampleValue()
    ensures GroupedFromRight("1234567", 3, ' ') + ".89" == "1 234 567.89"
  {
    assert GroupedFromRight("1", 3, ' ') == "1";
    assert "1234"[..1] == "1" && "1234"[1..] == "234";
    assert GroupedFromRight("1234", 3, ' ') == "1 234";
    assert "1234567"[..4] == "1234" && "1234567"[4..] == "567";
    assert GroupedFromRight("1234567", 3, ' ') == "1 234 567";
  }
}
