/** String operations the endpoint uses: lower-casing, joining, decimal digits. */
module Text {

  /** Lower-cases one character (ASCII letters only). */
  function LowerChar(c: char): (r: char)
    ensures 'A' <= c <= 'Z' ==> 'a' <= r <= 'z'
    ensures !('A' <= c <= 'Z') ==> r == c
  {
    if 'A' <= c <= 'Z' then (c as int + 32) as char else c
  }

  /** `type.lower()` in Python, `strtolower($type)` in PHP. */
  function Lower(s: string): (r: string)
    ensures |r| == |s|
    ensures forall i :: 0 <= i < |s| ==> r[i] == LowerChar(s[i])
  {
    if s == [] then [] else [LowerChar(s[0])] + Lower(s[1..])
  }

  /** A lower-cased string contains no upper-case letter, so lowering it again changes nothing. */
  lemma LowerIdempotent(s: string)
    ensures Lower(Lower(s)) == Lower(s)
  {
    var l := Lower(s);
    assert forall i :: 0 <= i < |l| ==> !('A' <= l[i] <= 'Z');
  }

  /**
   * `sep.join(parts)` in Python: the parts in order with one separator
   * between each two neighbours, so the text starts with the first part,
   * ends with the last, and is as long as the parts and separators together.
   */
  function Join(parts: seq<string>, sep: string): (r: string)
    ensures parts == [] ==> r == ""
    ensures |parts| == 1 ==> r == parts[0]
    ensures parts != [] ==> |r| == TotalLength(parts) + (|parts| - 1) * |sep|
    ensures parts != [] ==> parts[0] <= r
    ensures parts != [] ==> |parts[|parts| - 1]| <= |r| && r[|r| - |parts[|parts| - 1]|..] == parts[|parts| - 1]
  {
    if |parts| == 0 then ""
    else if |parts| == 1 then parts[0]
    else parts[0] + sep + Join(parts[1..], sep)
  }

  /** The combined length of all of `parts`. */
  function TotalLength(parts: seq<string>): nat
  {
    if parts == [] then 0 else |parts[0]| + TotalLength(parts[1..])
  }

  /** The number of `%` characters in `s`; each `%s` placeholder holds exactly one. */
  function Percents(s: string): nat
  {
    if s == [] then 0 else (if s[0] == '%' then 1 else 0) + Percents(s[1..])
  }

  /** Counting is additive over concatenation. */
  lemma {:induction false} PercentsConcat(a: string, b: string)
    ensures Percents(a + b) == Percents(a) + Percents(b)
  {
    if a == [] {
      assert a + b == b;
    } else {
      PercentsConcat(a[1..], b);
      assert (a + b)[1..] == a[1..] + b;
    }
  }

  lemma PercentsConcat5(a: string, b: string, c: string, d: string, e: string)
    ensures Percents(a + b + c + d + e)
         == Percents(a) + Percents(b) + Percents(c) + Percents(d) + Percents(e)
  {
    PercentsConcat(a, b);
    PercentsConcat(a + b, c);
    PercentsConcat(a + b + c, d);
    PercentsConcat(a + b + c + d, e);
  }

  /** The number of `%` characters in all of `parts` together. */
  function TotalPercents(parts: seq<string>): nat
  {
    if parts == [] then 0 else Percents(parts[0]) + TotalPercents(parts[1..])
  }

  /** Joining with a separator that holds no `%` neither adds nor loses one. */
  lemma {:induction false} JoinPercents(parts: seq<string>, sep: string)
    requires Percents(sep) == 0
    ensures Percents(Join(parts, sep)) == TotalPercents(parts)
  {
    if |parts| > 1 {
      JoinPercents(parts[1..], sep);
      PercentsConcat(parts[0], sep);
      PercentsConcat(parts[0] + sep, Join(parts[1..], sep));
    } else if |parts| == 1 {
      assert parts[1..] == [];
    }
  }

  function DigitChar(d: nat): (c: char)
    requires d < 10
    ensures '0' <= c <= '9'
  {
    "0123456789"[d]
  }

  /** The decimal digits of `n`, most significant first. */
  function Digits(n: nat): (ds: string)
    ensures |ds| > 0
    ensures forall i :: 0 <= i < |ds| ==> '0' <= ds[i] <= '9'
  {
    if n < 10 then [DigitChar(n)] else Digits(n / 10) + [DigitChar(n % 10)]
  }

  /** `str(n)` for a Python integer. */
  function Decimal(n: int): (r: string)
    ensures |r| > 0
    ensures r[0] == '-' <==> n < 0
  {
    if n < 0 then "-" + Digits(-n) else Digits(n)
  }
}
