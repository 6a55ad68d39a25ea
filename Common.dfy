/** Generic helpers shared by the model: an optional value, JavaScript's
    `Array.prototype.find` and `filter`, decimal rendering of integers with
    `padStart`, and the text transformation used for status chip labels. */
module Common {

  datatype Option<+T> = None | Some(value: T)

  /** The Material UI palette names the pages pick chip colours from. */
  datatype Colour = Default | Primary | Secondary | Error | Info | Success | Warning

  /** The alert a page shows after a handler runs. */
  datatype Notice = SuccessNotice(text: string) | ErrorNotice(text: string)

  /** No value occurs twice. */
  predicate Distinct<T(==)>(s: seq<T>)
  {
    forall i, j :: 0 <= i < j < |s| ==> s[i] != s[j]
  }

  /** Two duplicate-free lists with nothing in common make a duplicate-free
      list. */
  lemma DistinctConcat<T>(a: seq<T>, b: seq<T>)
    requires Distinct(a) && Distinct(b)
    requires forall i, j :: 0 <= i < |a| && 0 <= j < |b| ==> a[i] != b[j]
    ensures Distinct(a + b)
  {
    var s := a + b;
    forall i, j | 0 <= i < j < |s|
      ensures s[i] != s[j]
    {
      if j < |a| {
        assert s[i] == a[i] && s[j] == a[j];
      } else if i < |a| {
        assert s[i] == a[i] && s[j] == b[j - |a|];
      } else {
        assert s[i] == b[i - |a|] && s[j] == b[j - |a|];
      }
    }
  }

  // ---------------------------------------------------------------------
  // find / filter
  // ---------------------------------------------------------------------

  /** Index of the first element satisfying `p`, as `Array.prototype.find`
      locates it (the caller then reads or mutates that element). */
  function FindFirst<T>(s: seq<T>, p: T -> bool): (r: Option<nat>)
    ensures r.None? <==> forall j :: 0 <= j < |s| ==> !p(s[j])
    ensures r.Some? ==> r.value < |s| && p(s[r.value])
    ensures r.Some? ==> forall j :: 0 <= j < r.value ==> !p(s[j])
  {
    if s == [] then None
    else if p(s[0]) then Some(0)
    else match FindFirst(s[1..], p)
      case None => None
      case Some(k) => Some(k + 1)
  }

  /** `Array.prototype.filter`: the elements satisfying `p`, in order. */
  function Filter<T(!new)>(s: seq<T>, p: T -> bool): (r: seq<T>)
    ensures |r| <= |s|
    ensures forall x :: x in r <==> x in s && p(x)
  {
    if s == [] then []
    else if p(s[0]) then [s[0]] + Filter(s[1..], p)
    else Filter(s[1..], p)
  }

  /** Filtering a concatenation filters each part and keeps their order. */
  lemma {:induction false} FilterAppend<T(!new)>(a: seq<T>, b: seq<T>, p: T -> bool)
    ensures Filter(a + b, p) == Filter(a, p) + Filter(b, p)
  {
    if a == [] {
      assert a + b == b;
    } else {
      assert (a + b)[1..] == a[1..] + b;
      FilterAppend(a[1..], b, p);
    }
  }

  /** Appending one element grows the filtered list by that element exactly
      when it satisfies `p`. */
  lemma FilterSnoc<T(!new)>(a: seq<T>, x: T, p: T -> bool)
    ensures Filter(a + [x], p) == Filter(a, p) + (if p(x) then [x] else [])
  {
    FilterAppend(a, [x], p);
    assert [x][1..] == [];
  }

  /** Replacing an element by one that agrees with it on `p` keeps the
      filtered list's length. */
  lemma {:induction false} FilterUpdateLength<T(!new)>(s: seq<T>, i: nat, x: T, p: T -> bool)
    requires i < |s|
    requires p(x) == p(s[i])
    ensures |Filter(s[i := x], p)| == |Filter(s, p)|
  {
    if i > 0 {
      assert s[i := x][1..] == s[1..][i - 1 := x];
      FilterUpdateLength(s[1..], i - 1, x, p);
    } else {
      assert s[i := x][1..] == s[1..];
    }
  }

  // ---------------------------------------------------------------------
  // Decimal numbers, as `String(n)` and `padStart(width, '0')` render them
  // ---------------------------------------------------------------------

  predicate IsDigit(c: char) { '0' <= c <= '9' }

  predicate AllDigits(s: string) { forall i :: 0 <= i < |s| ==> IsDigit(s[i]) }

  function DigitChar(d: nat): (c: char)
    requires d < 10
    ensures IsDigit(c)
  {
    ('0' as int + d) as char
  }

  function DigitValue(c: char): (d: nat)
    requires IsDigit(c)
    ensures d < 10 && DigitChar(d) == c
  {
    c as int - '0' as int
  }

  /** `String(n)` for a non-negative integer: its decimal digits, without
      leading zeros. */
  function Decimal(n: nat): (s: string)
    ensures 1 <= |s| && AllDigits(s)
    ensures n >= 10 <==> |s| >= 2
    ensures s[0] == '0' <==> n == 0
    decreases n
  {
    if n < 10 then [DigitChar(n)] else Decimal(n / 10) + [DigitChar(n % 10)]
  }

  /** `String(i)` for any integer (a minus sign before negative values). */
  function IntToString(i: int): (s: string)
    ensures |s| >= 1
    ensures i < 0 <==> s[0] == '-'
  {
    if i < 0 then "-" + Decimal(-i) else Decimal(i)
  }

  /** The value a string of decimal digits denotes; leading zeros add nothing. */
  function DecimalValue(s: string): nat
    requires AllDigits(s)
  {
    if s == [] then 0 else DecimalValue(s[..|s| - 1]) * 10 + DigitValue(s[|s| - 1])
  }

  lemma {:induction false} DecimalRoundTrip(n: nat)
    ensures DecimalValue(Decimal(n)) == n
    decreases n
  {
    if n >= 10 {
      var s := Decimal(n);
      assert s[..|s| - 1] == Decimal(n / 10);
      DecimalRoundTrip(n / 10);
    }
  }

  /** A leading '0' does not change the value of a digit string. */
  lemma {:induction false} LeadingZeroIgnored(s: string)
    requires AllDigits(s)
    ensures AllDigits(['0'] + s) && DecimalValue(['0'] + s) == DecimalValue(s)
    decreases |s|
  {
    if s != [] {
      var t := ['0'] + s;
      assert t[..|t| - 1] == ['0'] + s[..|s| - 1];
      LeadingZeroIgnored(s[..|s| - 1]);
    }
  }

  function Repeat(c: char, n: nat): (r: string)
    ensures |r| == n && forall i :: 0 <= i < n ==> r[i] == c
  {
    if n == 0 then [] else [c] + Repeat(c, n - 1)
  }

  lemma {:induction false} LeadingZerosIgnored(k: nat, s: string)
    requires AllDigits(s)
    ensures AllDigits(Repeat('0', k) + s) && DecimalValue(Repeat('0', k) + s) == DecimalValue(s)
  {
    if k == 0 {
      assert Repeat('0', k) + s == s;
    } else {
      var t := Repeat('0', k - 1) + s;
      LeadingZerosIgnored(k - 1, s);
      LeadingZeroIgnored(t);
      assert Repeat('0', k) + s == ['0'] + t by {
        assert Repeat('0', k) == ['0'] + Repeat('0', k - 1);
      }
    }
  }

  /** `s.padStart(width, fill)` for a one-character fill string: `s` itself
      when it is already `width` long, otherwise `s` preceded by as many
      `fill` characters as it takes to reach `width`. */
  function PadStart(s: string, width: nat, fill: char): (r: string)
    ensures |r| == if |s| >= width then |s| else width
    ensures r[|r| - |s|..] == s
    ensures forall i :: 0 <= i < |r| - |s| ==> r[i] == fill
  {
    if |s| >= width then s else Repeat(fill, width - |s|) + s
  }

  /** A zero-padded decimal rendering still denotes the number rendered. */
  lemma PaddedDecimalValue(n: nat, width: nat)
    ensures AllDigits(PadStart(Decimal(n), width, '0'))
    ensures DecimalValue(PadStart(Decimal(n), width, '0')) == n
  {
    var s := Decimal(n);
    DecimalRoundTrip(n);
    if |s| < width {
      LeadingZerosIgnored(width - |s|, s);
    }
  }

  // ---------------------------------------------------------------------
  // Chip labels: `s.replace('_', ' ').toUpperCase()`
  // ---------------------------------------------------------------------

  /** `String.prototype.replace` with a one-character string pattern: only the
      FIRST occurrence is replaced. */
  function ReplaceFirst(s: string, from: char, to: char): (r: string)
    ensures |r| == |s|
    ensures match FindFirst(s, c => c == from)
      case None => r == s
      case Some(k) => r == s[k := to]
  {
    if s == [] then []
    else if s[0] == from then [to] + s[1..]
    else
      [s[0]] + ReplaceFirst(s[1..], from, to)
  }

  /** Upper-casing of one character; only the ASCII letters a-z change. */
  function UpperChar(c: char): char
  {
    if 'a' <= c <= 'z' then (c as int - 32) as char else c
  }

  /** `String.prototype.toUpperCase`, restricted to ASCII letters. */
  function ToUpper(s: string): (r: string)
    ensures |r| == |s| && forall i :: 0 <= i < |s| ==> r[i] == UpperChar(s[i])
  {
    if s == [] then [] else [UpperChar(s[0])] + ToUpper(s[1..])
  }

  /** The text on a status or violation-type chip. */
  function ChipLabel(s: string): string
  {
    ToUpper(ReplaceFirst(s, '_', ' '))
  }

  /** The chip shows the value upper-cased, with its first underscore (and
      only that one) turned into a space. */
  lemma ChipLabelShape(s: string, k: nat)
    requires k < |s| && s[k] == '_'
    requires forall j :: 0 <= j < k ==> s[j] != '_'
    ensures |ChipLabel(s)| == |s|
    ensures ChipLabel(s)[k] == ' '
    ensures forall j :: 0 <= j < |s| && j != k ==> ChipLabel(s)[j] == UpperChar(s[j])
  {
    var f := FindFirst(s, c => c == '_');
    assert f.Some? && f.value == k;
  }
}
