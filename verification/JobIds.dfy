/** Creation job ids: a zero-padded time, process id and counter joined by hyphens
    (backend/services/vm_creation_queue.py, _next_job_id), and the order of strings. */
module JobIds {

  /** Lexicographic order by character code, the order in which the database sorts ids. */
  predicate Less(a: string, b: string) {
    b != [] && (a == [] || a[0] < b[0] || (a[0] == b[0] && Less(a[1..], b[1..])))
  }

  lemma {:induction false} LessTotal(a: string, b: string)
    ensures Less(a, b) || a == b || Less(b, a)
  {
    if a != [] && b != [] && a[0] == b[0] {
      LessTotal(a[1..], b[1..]);
      assert a == [a[0]] + a[1..] && b == [b[0]] + b[1..];
    }
  }

  lemma {:induction false} LessIrreflexive(a: string)
    ensures !Less(a, a)
  {
    if a == [] {
    } else {
      LessIrreflexive(a[1..]);
    }
  }

  lemma {:induction false} LessTransitive(a: string, b: string, c: string)
    requires Less(a, b) && Less(b, c)
    ensures Less(a, c)
  {
    if a != [] && a[0] == b[0] == c[0] { LessTransitive(a[1..], b[1..], c[1..]); }
  }

  // ---------------------------------------------------------------------------
  // Zero-padded decimals
  // ---------------------------------------------------------------------------

  function Digit(d: nat): char
    requires d < 10
  {
    '0' + d as char
  }

  predicate IsDigits(s: string) {
    forall i | 0 <= i < |s| :: '0' <= s[i] <= '9'
  }

  function Decimal(n: nat): string {
    if n < 10 then [Digit(n)] else Decimal(n / 10) + [Digit(n % 10)]
  }

  /** At least w digits, leading zeros added as needed: the format spec `0{w}d`. */
  function Pad(n: nat, w: nat): string {
    ZeroFill(Decimal(n), w)
  }

  function ZeroFill(s: string, w: nat): string
    decreases w - |s|
  {
    if |s| >= w then s else ZeroFill("0" + s, w)
  }

  function JobId(time: nat, pid: nat, count: nat): string {
    Pad(time, 19) + "-" + (Pad(pid, 5) + "-" + Pad(count, 6))
  }

  /** The number a digit string stands for. */
  function Value(s: string): nat
    requires IsDigits(s)
  {
    if s == [] then 0 else 10 * Value(s[..|s| - 1]) + (s[|s| - 1] - '0') as nat
  }

  function Pow10(w: nat): nat { if w == 0 then 1 else 10 * Pow10(w - 1) }

  lemma {:induction false} DecimalValue(n: nat)
    ensures IsDigits(Decimal(n)) && Value(Decimal(n)) == n
  {
    if n < 10 {
    } else {
      DecimalValue(n / 10);
      assert Decimal(n)[..|Decimal(n)| - 1] == Decimal(n / 10);
    }
  }

  lemma {:induction false} LeadingZeroValue(s: string)
    requires IsDigits(s)
    ensures IsDigits("0" + s) && Value("0" + s) == Value(s)
  {
    if s == [] {
      assert ("0" + s)[..0] == [];
    } else {
      assert ("0" + s)[..|s|] == "0" + s[..|s| - 1];
      LeadingZeroValue(s[..|s| - 1]);
    }
  }

  lemma {:induction false} ZeroFillValue(s: string, w: nat)
    requires IsDigits(s)
    ensures IsDigits(ZeroFill(s, w)) && Value(ZeroFill(s, w)) == Value(s)
    ensures |ZeroFill(s, w)| == if |s| >= w then |s| else w
    decreases w - |s|
  {
    if |s| >= w {
    } else {
      LeadingZeroValue(s);
      ZeroFillValue("0" + s, w);
    }
  }

  lemma {:induction false} DecimalFits(n: nat, w: nat)
    requires w > 0 && n < Pow10(w)
    ensures |Decimal(n)| <= w
  {
    if n < 10 {
    } else {
      DecimalFits(n / 10, w - 1);
    }
  }

  lemma PadValue(n: nat, w: nat)
    ensures IsDigits(Pad(n, w)) && Value(Pad(n, w)) == n
    ensures w > 0 && n < Pow10(w) ==> |Pad(n, w)| == w
  {
    DecimalValue(n);
    ZeroFillValue(Decimal(n), w);
    if w > 0 && n < Pow10(w) { DecimalFits(n, w); }
  }

  // ---------------------------------------------------------------------------
  // Ids are never shared
  // ---------------------------------------------------------------------------

  /** A hyphen ends the first field, so equal strings have equal fields. */
  lemma {:induction false} SplitAtHyphen(a: string, x: string, b: string, y: string)
    requires IsDigits(a) && IsDigits(b) && a + "-" + x == b + "-" + y
    ensures a == b && x == y
  {
    var l, r := a + "-" + x, b + "-" + y;
    assert l[|a|] == '-' && r[|b|] == '-';
    assert forall i | 0 <= i < |a| :: l[i] == a[i];
    assert forall i | 0 <= i < |b| :: r[i] == b[i];
    assert |a| == |b|;
    assert a == l[..|a|] == r[..|b|] == b;
    assert x == l[|a| + 1..] == r[|b| + 1..] == y;
  }

  /** Different times, processes or counts give different ids, whatever their size. */
  lemma JobIdInjective(t: nat, p: nat, c: nat, t': nat, p': nat, c': nat)
    requires JobId(t, p, c) == JobId(t', p', c')
    ensures t == t' && p == p' && c == c'
  {
    PadValue(t, 19);
    PadValue(t', 19);
    PadValue(p, 5);
    PadValue(p', 5);
    PadValue(c, 6);
    PadValue(c', 6);
    SplitAtHyphen(Pad(t, 19), Pad(p, 5) + "-" + Pad(c, 6), Pad(t', 19), Pad(p', 5) + "-" + Pad(c', 6));
    SplitAtHyphen(Pad(p, 5), Pad(c, 6), Pad(p', 5), Pad(c', 6));
  }

  // ---------------------------------------------------------------------------
  // Ids sort by time, process and count
  // ---------------------------------------------------------------------------

  lemma {:induction false} LessConcat(a: string, x: string, b: string, y: string)
    requires |a| == |b|
    ensures Less(a + x, b + y) <==> Less(a, b) || (a == b && Less(x, y))
  {
    if a == [] {
      assert a + x == x && b + y == y;
    } else {
      assert (a + x)[1..] == a[1..] + x && (b + y)[1..] == b[1..] + y;
      LessConcat(a[1..], x, b[1..], y);
      assert a == [a[0]] + a[1..] && b == [b[0]] + b[1..];
    }
  }

  /** On digit strings of one length, string order is the order of the numbers. */
  lemma {:induction false} LessIsNumeric(a: string, b: string)
    requires |a| == |b| && IsDigits(a) && IsDigits(b)
    ensures Less(a, b) <==> Value(a) < Value(b)
    ensures a == b <==> Value(a) == Value(b)
  {
    if a == [] {
    } else {
      var n := |a| - 1;
      LessIsNumeric(a[..n], b[..n]);
      LessConcat(a[..n], [a[n]], b[..n], [b[n]]);
      assert a == a[..n] + [a[n]] && b == b[..n] + [b[n]];
      assert Less([a[n]], [b[n]]) <==> a[n] < b[n];
    }
  }

  predicate Fits(time: nat, pid: nat, count: nat) {
    time < Pow10(19) && pid < Pow10(5) && count < Pow10(6)
  }

  /** While the fields fit their widths, ids sort by time, then process, then count. */
  lemma JobIdOrder(t: nat, p: nat, c: nat, t': nat, p': nat, c': nat)
    requires Fits(t, p, c) && Fits(t', p', c')
    ensures Less(JobId(t, p, c), JobId(t', p', c')) <==> t < t' || (t == t' && (p < p' || (p == p' && c < c')))
  {
    PadValue(t, 19);
    PadValue(t', 19);
    PadValue(p, 5);
    PadValue(p', 5);
    PadValue(c, 6);
    PadValue(c', 6);
    LessIsNumeric(Pad(t, 19), Pad(t', 19));
    LessIsNumeric(Pad(p, 5), Pad(p', 5));
    LessIsNumeric(Pad(c, 6), Pad(c', 6));
    LessAfterHyphen(Pad(p, 5), Pad(c, 6), Pad(p', 5), Pad(c', 6));
    LessAfterHyphen(Pad(t, 19), Pad(p, 5) + "-" + Pad(c, 6), Pad(t', 19), Pad(p', 5) + "-" + Pad(c', 6));
  }

  lemma LessAfterHyphen(a: string, x: string, b: string, y: string)
    requires |a| == |b|
    ensures Less(a + "-" + x, b + "-" + y) <==> Less(a, b) || (a == b && Less(x, y))
  {
    assert a + "-" + x == a + ("-" + x) && b + "-" + y == b + ("-" + y);
    LessConcat(a, "-" + x, b, "-" + y);
    LessConcat("-", x, "-", y);
    LessIrreflexive("-");
  }
}
