/**
 * String helpers with the meaning Python gives them on ASCII text:
 * `str.isdigit`, `str.replace(c, '')`, `str.replace(c, '', 1)`, `"\n".join`,
 * plus decimal digit strings and thousands separators used to state round trips.
 */
module Text {

  predicate IsDigit(c: char) {
    '0' <= c <= '9'
  }

  /** Every character a digit; the empty text qualifies. */
  predicate DigitsOnly(s: string) {
    forall i :: 0 <= i < |s| ==> IsDigit(s[i])
  }

  /** Python's `str.isdigit()` on ASCII text: non-empty and every character a digit. */
  predicate AllDigits(s: string) {
    |s| > 0 && DigitsOnly(s)
  }

  /** `s.replace(c, '')`: every occurrence of `c` removed, everything else kept in order. */
  function RemoveAll(s: string, c: char): (r: string)
    ensures c !in r
    ensures |r| <= |s|
    ensures forall x :: x in r ==> x in s
  {
    if s == [] then []
    else (if s[0] == c then [] else [s[0]]) + RemoveAll(s[1..], c)
  }

  lemma {:induction false} RemoveAllConcat(a: string, b: string, c: char)
    ensures RemoveAll(a + b, c) == RemoveAll(a, c) + RemoveAll(b, c)
  {
    if a == [] {
      assert a + b == b;
    } else {
      assert (a + b)[0] == a[0];
      assert (a + b)[1..] == a[1..] + b;
      RemoveAllConcat(a[1..], b, c);
    }
  }

  /** Removal around one character: it is dropped when it is the removed one and kept otherwise. */
  lemma RemoveAllAround(a: string, x: char, b: string, c: char)
    ensures RemoveAll(a + [x] + b, c) == RemoveAll(a, c) + (if x == c then [] else [x]) + RemoveAll(b, c)
  {
    RemoveAllConcat(a + [x], b, c);
    RemoveAllConcat(a, [x], c);
    assert [x][1..] == [];
  }

  lemma {:induction false} RemoveAllAbsent(s: string, c: char)
    requires c !in s
    ensures RemoveAll(s, c) == s
  {
    if s != [] {
      assert s[0] != c;
      assert c !in s[1..];
      RemoveAllAbsent(s[1..], c);
    }
  }

  /** A character other than the removed one survives the removal. */
  lemma {:induction false} RemoveAllKeeps(s: string, c: char, d: char)
    requires d != c && d in s
    ensures d in RemoveAll(s, c)
  {
    if s[0] != d {
      assert d in s[1..];
      RemoveAllKeeps(s[1..], c, d);
    }
  }

  /** Removing `c` around two kept characters removes it from the three pieces between them. */
  lemma RemoveAllAroundTwo(a: string, x: char, b: string, y: char, d: string, c: char)
    requires x != c && y != c
    ensures RemoveAll(a + [x] + b + [y] + d, c) == RemoveAll(a, c) + [x] + RemoveAll(b, c) + [y] + RemoveAll(d, c)
  {
    assert a + [x] + b + [y] + d == a + [x] + (b + [y] + d);
    RemoveAllAround(a, x, b + [y] + d, c);
    RemoveAllAround(b, y, d, c);
  }

  /** `s.replace(c, '', 1)`: the first occurrence of `c` removed. */
  function ReplaceFirst(s: string, c: char): (r: string)
    ensures c in s ==> |r| == |s| - 1
    ensures c !in s ==> r == s
  {
    if s == [] then []
    else if s[0] == c then s[1..]
    else [s[0]] + ReplaceFirst(s[1..], c)
  }

  /** It is the first `c` that goes: the text before it and the text after it are kept, in order. */
  lemma {:induction false} ReplaceFirstRemovesFirst(s: string, c: char)
    requires c in s
    ensures ReplaceFirst(s, c) == s[..IndexOf(s, c)] + s[IndexOf(s, c) + 1..]
  {
    if s[0] != c {
      var t := s[1..];
      assert c in t;
      ReplaceFirstRemovesFirst(t, c);
      var k := IndexOf(t, c);
      assert IndexOf(s, c) == k + 1;
      assert s[..k + 1] == [s[0]] + t[..k];
      assert s[k + 2..] == t[k + 1..];
    }
  }

  /** A character other than the removed one survives `ReplaceFirst`. */
  lemma {:induction false} ReplaceFirstKeeps(s: string, c: char, d: char)
    requires d != c && d in s
    ensures d in ReplaceFirst(s, c)
  {
    if s[0] != d && s[0] != c {
      assert d in s[1..];
      ReplaceFirstKeeps(s[1..], c, d);
    } else if s[0] == c {
      assert d in s[1..];
    }
  }

  /** With two occurrences of `c`, one is still there after `ReplaceFirst`. */
  lemma {:induction false} ReplaceFirstSecond(s: string, c: char, i: nat, j: nat)
    requires i < j < |s| && s[i] == c && s[j] == c
    ensures c in ReplaceFirst(s, c)
  {
    if s[0] == c {
      assert s[1..][j - 1] == c;
    } else {
      ReplaceFirstSecond(s[1..], c, i - 1, j - 1);
    }
  }

  /** Position of the first `c`, or `|s|` when there is none. */
  function IndexOf(s: string, c: char): (i: nat)
    ensures i <= |s|
    ensures i < |s| ==> s[i] == c
    ensures c !in s[..i]
  {
    if s == [] then 0
    else if s[0] == c then 0
    else
      assert s[..1 + IndexOf(s[1..], c)] == [s[0]] + s[1..][..IndexOf(s[1..], c)];
      1 + IndexOf(s[1..], c)
  }

  function DigitValue(c: char): nat {
    if IsDigit(c) then (c as int - '0' as int) else 0
  }

  function DigitChar(d: nat): (c: char)
    requires d < 10
    ensures IsDigit(c) && DigitValue(c) == d
  {
    ('0' as int + d) as char
  }

  /** The number a string of decimal digits denotes (most significant first). */
  function DigitsValue(s: string): nat {
    if s == [] then 0 else DigitsValue(s[..|s| - 1]) * 10 + DigitValue(s[|s| - 1])
  }

  /** The decimal digits of `n`, without leading zeros. */
  function Digits(n: nat): (r: string)
    ensures AllDigits(r)
  {
    if n < 10 then [DigitChar(n)] else Digits(n / 10) + [DigitChar(n % 10)]
  }

  lemma {:induction false} DigitsRoundTrip(n: nat)
    ensures DigitsValue(Digits(n)) == n
  {
    if n >= 10 {
      var s := Digits(n);
      assert s[..|s| - 1] == Digits(n / 10);
      DigitsRoundTrip(n / 10);
    }
  }

  /** A digit string with a `,` inserted before every group of three, counted from the right. */
  function Grouped(ds: string): string
    decreases |ds|
  {
    if |ds| <= 3 then ds else Grouped(ds[..|ds| - 3]) + "," + ds[|ds| - 3..]
  }

  /** Removing the separators undoes the grouping. */
  lemma {:induction false} UngroupRoundTrip(ds: string)
    requires ',' !in ds
    ensures RemoveAll(Grouped(ds), ',') == ds
    decreases |ds|
  {
    if |ds| <= 3 {
      RemoveAllAbsent(ds, ',');
    } else {
      var head, tail := ds[..|ds| - 3], ds[|ds| - 3..];
      assert head + tail == ds;
      assert ',' !in head && ',' !in tail;
      var g := Grouped(head);
      assert Grouped(ds) == g + "," + tail;
      UngroupRoundTrip(head);
      RemoveAllConcat(g + ",", tail, ',');
      RemoveAllConcat(g, ",", ',');
      RemoveAllAbsent(tail, ',');
      assert RemoveAll(",", ',') == [];
      assert RemoveAll(g + ",", ',') == head;
    }
  }

  /** `sep.join(lines)`. */
  function Join(lines: seq<string>, sep: string): (r: string)
    ensures lines == [] ==> r == []
    ensures |lines| == 1 ==> r == lines[0]
  {
    if lines == [] then []
    else if |lines| == 1 then lines[0]
    else lines[0] + sep + Join(lines[1..], sep)
  }
}
