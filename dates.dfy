/** The trade date re-emitted as an ISO-8601 timestamp at midnight
    (`datetime.isoformat()` of the date parsed with "%Y-%m-%d"). */
module Dates {
  import opened Records
  import opened Strings

  function Pow10(w: nat): (r: nat)
    ensures r >= 1
  {
    if w == 0 then 1 else 10 * Pow10(w - 1)
  }

  function DigitChar(k: nat): char
    requires k < 10
  {
    "0123456789"[k]
  }

  /** The last `w` decimal digits of `n`, zero-padded. */
  function Pad(n: nat, w: nat): (r: string)
    ensures |r| == w
    ensures forall i :: 0 <= i < |r| ==> '0' <= r[i] <= '9'
  {
    if w == 0 then "" else Pad(n / 10, w - 1) + [DigitChar(n % 10)]
  }

  /** "YYYY-MM-DD". */
  function DateText(d: Date): (r: string)
    ensures |r| == 10 && r[4] == '-' && r[7] == '-'
  {
    Pad(d.year, 4) + "-" + Pad(d.month, 2) + "-" + Pad(d.day, 2)
  }

  /** "YYYY-MM-DDT00:00:00", the activity's date field. */
  function IsoMidnight(d: Date): (r: string)
    ensures |r| == 19 && r[..10] == DateText(d) && r[10..] == "T00:00:00"
  {
    var r := Pad(d.year, 4) + ("-" + (Pad(d.month, 2) + ("-" + (Pad(d.day, 2) + "T00:00:00"))));
    assert r == DateText(d) + "T00:00:00";
    r
  }

  /** Chronological order of dates. */
  predicate Before(d1: Date, d2: Date) {
    d1.year < d2.year
    || (d1.year == d2.year && d1.month < d2.month)
    || (d1.year == d2.year && d1.month == d2.month && d1.day < d2.day)
  }

  /** Zero-padded numbers below 10^w compare as strings exactly as they compare as numbers. */
  lemma {:induction false} PadOrder(n: nat, m: nat, w: nat)
    requires n < Pow10(w) && m < Pow10(w)
    ensures Less(Pad(n, w), Pad(m, w)) <==> n < m
    ensures Pad(n, w) == Pad(m, w) <==> n == m
  {
    if w == 0 {
      LessIrreflexive("");
    } else {
      PadOrder(n / 10, m / 10, w - 1);
      var p, q := Pad(n / 10, w - 1), Pad(m / 10, w - 1);
      var c, d := DigitChar(n % 10), DigitChar(m % 10);
      assert Pad(n, w) == p + [c] && Pad(m, w) == q + [d];
      LessConcat(p, [c], q, [d]);
      SnocEquality(p, c, q, d);
      DigitOrder(n % 10, m % 10);
      LastDigitOrder(n, m);
    }
  }

  lemma SnocEquality(x: string, c: char, y: string, d: char)
    requires |x| == |y|
    ensures x + [c] == y + [d] <==> x == y && c == d
  {
    if x + [c] == y + [d] {
      assert (x + [c])[..|x|] == x && (y + [d])[..|x|] == y;
      assert (x + [c])[|x|] == c && (y + [d])[|x|] == d;
    }
  }

  lemma DigitOrder(a: nat, b: nat)
    requires a < 10 && b < 10
    ensures Less([DigitChar(a)], [DigitChar(b)]) <==> a < b
    ensures DigitChar(a) == DigitChar(b) <==> a == b
  {
    assert Less([DigitChar(a)], [DigitChar(b)]) <==> DigitChar(a) < DigitChar(b);
  }

  /** Numbers compare on all digits but the last, then on the last. */
  lemma LastDigitOrder(n: nat, m: nat)
    ensures n < m <==> n / 10 < m / 10 || (n / 10 == m / 10 && n % 10 < m % 10)
    ensures n == m <==> n / 10 == m / 10 && n % 10 == m % 10
  {
    assert n == 10 * (n / 10) + n % 10 && m == 10 * (m / 10) + m % 10;
  }

  /** Two strings made of a fixed-width piece, a separator and a rest compare on the
      pieces first. */
  lemma SeparatedOrder(x1: string, r1: string, x2: string, r2: string)
    requires |x1| == |x2|
    ensures Less(x1 + ("-" + r1), x2 + ("-" + r2)) <==> Less(x1, x2) || (x1 == x2 && Less(r1, r2))
    ensures x1 + ("-" + r1) == x2 + ("-" + r2) <==> x1 == x2 && r1 == r2
  {
    LessConcat(x1, "-" + r1, x2, "-" + r2);
    LessConcat("-", r1, "-", r2);
    LessIrreflexive("-");
    if x1 + ("-" + r1) == x2 + ("-" + r2) {
      var s := x1 + ("-" + r1);
      assert s[..|x1|] == x1 && (x2 + ("-" + r2))[..|x1|] == x2;
      assert s[|x1| + 1..] == r1 && (x2 + ("-" + r2))[|x1| + 1..] == r2;
    }
  }

  lemma TailOrder(e1: string, e2: string)
    requires |e1| == |e2|
    ensures Less(e1 + "T00:00:00", e2 + "T00:00:00") <==> Less(e1, e2)
    ensures e1 + "T00:00:00" == e2 + "T00:00:00" <==> e1 == e2
  {
    LessConcat(e1, "T00:00:00", e2, "T00:00:00");
    LessIrreflexive("T00:00:00");
    if e1 + "T00:00:00" == e2 + "T00:00:00" {
      assert (e1 + "T00:00:00")[..|e1|] == e1 && (e2 + "T00:00:00")[..|e1|] == e2;
    }
  }

  /** The ISO timestamps the transformer emits sort as strings in chronological order,
      and two of them are equal exactly when their dates are. */
  lemma IsoMidnightOrder(d1: Date, d2: Date)
    ensures Less(IsoMidnight(d1), IsoMidnight(d2)) <==> Before(d1, d2)
    ensures IsoMidnight(d1) == IsoMidnight(d2) <==> d1 == d2
  {
    assert Pow10(4) == 10000 && Pow10(2) == 100;
    PadOrder(d1.year, d2.year, 4);
    PadOrder(d1.month, d2.month, 2);
    PadOrder(d1.day, d2.day, 2);
    var e1, e2 := Pad(d1.day, 2), Pad(d2.day, 2);
    var m1, m2 := Pad(d1.month, 2), Pad(d2.month, 2);
    TailOrder(e1, e2);
    SeparatedOrder(m1, e1 + "T00:00:00", m2, e2 + "T00:00:00");
    SeparatedOrder(Pad(d1.year, 4), m1 + ("-" + (e1 + "T00:00:00")),
                   Pad(d2.year, 4), m2 + ("-" + (e2 + "T00:00:00")));
  }

  lemma IsoMidnightExample()
    ensures IsoMidnight(RawDate(2024, 1, 15)) == "2024-01-15T00:00:00"
  {
  }
}
