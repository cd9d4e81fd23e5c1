/** Text primitives the source takes from its runtime: split and join on a separator,
    number formatting and parsing in a base, zero padding, and the order of texts. */
module Text {

  /** `s.split(c)`: always at least one part, and an empty text has one empty part. */
  function Split(s: string, c: char): (parts: seq<string>)
    ensures |parts| > 0
  {
    if s == "" then [""]
    else
      var rest := Split(s[1..], c);
      if s[0] == c then [""] + rest else [[s[0]] + rest[0]] + rest[1..]
  }

  /** `parts.join(c)`. */
  function Join(parts: seq<string>, c: char): string {
    if |parts| == 0 then ""
    else if |parts| == 1 then parts[0]
    else parts[0] + [c] + Join(parts[1..], c)
  }

  lemma {:induction false} JoinSplit(s: string, c: char)
    ensures Join(Split(s, c), c) == s
  {
    if s == "" {
    } else {
      JoinSplit(s[1..], c);
      var rest := Split(s[1..], c);
      if s[0] == c {
        assert ([""] + rest)[1..] == rest;
      } else {
        assert ([[s[0]] + rest[0]] + rest[1..])[1..] == rest[1..];
        assert Join([[s[0]] + rest[0]] + rest[1..], c) == [s[0]] + Join(rest, c);
      }
    }
  }

  lemma {:induction false} SplitParts(s: string, c: char)
    ensures forall p | p in Split(s, c) :: c !in p
  {
    if s == "" {
    } else {
      SplitParts(s[1..], c);
    }
  }

  lemma {:induction false} SplitHead(a: string, rest: string, c: char)
    requires c !in a
    ensures Split(a + [c] + rest, c) == [a] + Split(rest, c)
  {
    if a == "" {
      assert ([c] + rest)[1..] == rest;
      assert a + [c] + rest == [c] + rest;
    } else {
      assert (a + [c] + rest)[1..] == a[1..] + [c] + rest;
      SplitHead(a[1..], rest, c);
      assert [a[0]] + a[1..] == a;
    }
  }

  lemma {:induction false} SplitNone(a: string, c: char)
    requires c !in a
    ensures Split(a, c) == [a]
  {
    if a == "" {
    } else {
      SplitNone(a[1..], c);
      assert [a[0]] + a[1..] == a;
    }
  }

  lemma {:induction false} SplitJoin(parts: seq<string>, c: char)
    requires |parts| > 0
    requires forall p | p in parts :: c !in p
    ensures Split(Join(parts, c), c) == parts
  {
    if |parts| == 1 {
      SplitNone(parts[0], c);
    } else {
      SplitJoin(parts[1..], c);
      SplitHead(parts[0], Join(parts[1..], c), c);
    }
  }

  /** The text before the first separator, and what follows it, are determined by the whole. */
  lemma {:induction false} FirstSeparator(a: string, x: string, b: string, y: string, c: char)
    requires c !in a && c !in b
    requires a + [c] + x == b + [c] + y
    ensures a == b && x == y
  {
    var s := a + [c] + x;
    assert s[|a|] == c && s[|b|] == c;
    assert forall k | 0 <= k < |a| :: s[k] == a[k];
    assert forall k | 0 <= k < |b| :: s[k] == b[k];
    assert |a| == |b|;
    assert a == s[..|a|] && b == s[..|b|];
    assert x == s[|a| + 1..] && y == s[|b| + 1..];
  }

  // ---------- numbers ----------

  function Pow(base: nat, e: nat): (p: nat)
    ensures base > 0 ==> p > 0
  {
    if e == 0 then 1 else base * Pow(base, e - 1)
  }

  predicate IsDigit(c: char, base: nat) {
    '0' <= c && c as int - '0' as int < base
  }

  predicate AllDigits(s: string, base: nat) {
    forall c | c in s :: IsDigit(c, base)
  }

  /** `n.toString(base)` for a non-negative integer. */
  function Digits(n: nat, base: nat): (s: string)
    requires 2 <= base <= 10
    ensures |s| > 0 && AllDigits(s, base)
    ensures s[0] == '0' ==> s == "0"
    decreases n
  {
    if n < base then [(n + '0' as int) as char]
    else
      Shrinks(n, base);
      Digits(n / base, base) + [(n % base + '0' as int) as char]
  }

  /** `Number.parseInt(s, base)` for a text of digits. */
  function Value(s: string, base: nat): (n: nat)
    requires AllDigits(s, base)
  {
    if s == "" then 0
    else
      assert IsDigit(s[|s| - 1], base);
      Value(s[..|s| - 1], base) * base + (s[|s| - 1] as int - '0' as int)
  }

  lemma {:induction false} TimesMonotone(a: nat, b: nat, base: nat)
    requires a <= b
    ensures a * base <= b * base
    ensures a < b ==> a * base + base <= b * base
  {
    if a >= b {
    } else {
      TimesMonotone(a, b - 1, base);
      assert b * base == (b - 1) * base + base;
    }
  }

  lemma Shrinks(n: nat, base: nat)
    requires 2 <= base <= n
    ensures 0 < n / base < n
  {
    var q := n / base;
    assert n == q * base + n % base;
    assert q > 0;
    assert q * base == q * 2 + q * (base - 2);
  }

  lemma DivMod(q: nat, d: nat, base: nat)
    requires d < base
    ensures (q * base + d) / base == q && (q * base + d) % base == d
  {
    var n := q * base + d;
    var p := n / base;
    assert n == p * base + n % base;
    if p > q {
      TimesMonotone(q, p, base);
    } else if p < q {
      TimesMonotone(p, q, base);
    }
  }

  lemma ValueAppend(s: string, c: char, base: nat)
    requires AllDigits(s, base) && IsDigit(c, base)
    ensures AllDigits(s + [c], base)
    ensures Value(s + [c], base) == Value(s, base) * base + (c as int - '0' as int)
  {
    assert (s + [c])[..|s|] == s;
  }

  lemma DigitsParts(n: nat, base: nat) returns (q: nat, d: nat)
    requires 2 <= base <= 10 && base <= n
    ensures q < n && d < base && n == q * base + d
    ensures Digits(n, base) == Digits(q, base) + [(d + '0' as int) as char]
  {
    Shrinks(n, base);
    q, d := n / base, n % base;
  }

  lemma {:induction false} ValueDigits(n: nat, base: nat)
    requires 2 <= base <= 10
    ensures Value(Digits(n, base), base) == n
    decreases n
  {
    if n < base {
      ValueAppend("", Digits(n, base)[0], base);
      assert "" + Digits(n, base) == Digits(n, base) && 0 * base == 0;
    } else {
      var q, d := DigitsParts(n, base);
      hide Digits, Value;
      ValueDigits(q, base);
      ValueAppend(Digits(q, base), (d + '0' as int) as char, base);
    }
  }

  lemma {:induction false} ValuePositive(s: string, base: nat)
    requires base >= 2 && AllDigits(s, base) && s != "" && s[0] != '0'
    ensures Value(s, base) > 0
  {
    assert IsDigit(s[0], base) && IsDigit(s[|s| - 1], base);
    if |s| <= 1 {
    } else {
      ValuePositive(s[..|s| - 1], base);
      TimesMonotone(1, Value(s[..|s| - 1], base), base);
    }
  }

  /** A digit text without a leading zero is what formatting its value prints. */
  lemma {:induction false} DigitsValue(s: string, base: nat)
    requires 2 <= base <= 10 && AllDigits(s, base) && s != "" && (s[0] != '0' || s == "0")
    ensures Digits(Value(s, base), base) == s
  {
    assert IsDigit(s[|s| - 1], base);
    var d := s[|s| - 1] as int - '0' as int;
    if |s| == 1 {
      assert Value(s[..0], base) * base == 0;
      assert s == [(d + '0' as int) as char];
    } else {
      var t := s[..|s| - 1];
      ValuePositive(t, base);
      DigitsValue(t, base);
      DivMod(Value(t, base), d, base);
      TimesMonotone(1, Value(t, base), base);
      assert s == t + [s[|s| - 1]];
    }
  }

  lemma Compare(q: nat, d: nat, p: nat, base: nat)
    requires d < base
    ensures q * base + d < base * p <==> q < p
  {
    if q < p {
      TimesMonotone(q, p, base);
    } else {
      TimesMonotone(p, q, base);
    }
  }

  /** A number prints in at most `w` digits exactly when it is below base^w. */
  lemma {:induction false} DigitsLength(n: nat, base: nat, w: nat)
    requires 2 <= base <= 10 && w >= 1
    ensures |Digits(n, base)| <= w <==> n < Pow(base, w)
    decreases n
  {
    if n < base {
      PowGrows(base, w);
    } else {
      hide Digits, Pow;
      var q := DigitsBeforeLast(n, base, w);
      if w > 1 {
        DigitsLength(q, base, w - 1);
      }
    }
  }

  /** Dropping the last digit: one digit less, and one power less to be below. */
  lemma DigitsBeforeLast(n: nat, base: nat, w: nat) returns (q: nat)
    requires 2 <= base <= 10 && base <= n && w >= 1
    ensures 1 <= q < n && |Digits(n, base)| == |Digits(q, base)| + 1
    ensures n < Pow(base, w) <==> q < Pow(base, w - 1)
    ensures w == 1 ==> Pow(base, w - 1) == 1
  {
    var d;
    q, d := DigitsParts(n, base);
    hide Digits;
    assert 0 * base == 0;
    assert Pow(base, w) == base * Pow(base, w - 1);
    hide Pow;
    Compare(q, d, Pow(base, w - 1), base);
  }

  lemma {:induction false} PowGrows(base: nat, w: nat)
    requires base >= 2 && w >= 1
    ensures Pow(base, w) >= base
  {
    if w > 1 {
      PowGrows(base, w - 1);
      TimesMonotone(1, Pow(base, w - 1), base);
    } else {
      assert Pow(base, 0) == 1;
    }
  }

  lemma {:induction false} ValueBound(s: string, base: nat)
    requires base >= 2 && AllDigits(s, base)
    ensures Value(s, base) < Pow(base, |s|)
  {
    if s == "" {
    } else {
      var n := |s| - 1;
      ValueBound(s[..n], base);
      assert IsDigit(s[n], base);
      TimesMonotone(Value(s[..n], base), Pow(base, n), base);
      assert base * Pow(base, n) == Pow(base, n) * base;
    }
  }

  lemma {:induction false} PowMonotone(base: nat, a: nat, b: nat)
    requires base >= 1 && a <= b
    ensures Pow(base, a) <= Pow(base, b)
  {
    if a >= b {
    } else {
      PowMonotone(base, a, b - 1);
      TimesMonotone(1, base, Pow(base, b - 1));
    }
  }

  function Repeat(c: char, n: nat): (s: string)
    ensures |s| == n && forall k | 0 <= k < n :: s[k] == c
  {
    seq(n, _ => c)
  }

  /** `s.padStart(width, '0')`. */
  function PadStart(s: string, width: nat): (t: string)
    ensures |t| == if |s| < width then width else |s|
  {
    if |s| < width then Repeat('0', width - |s|) + s else s
  }

  lemma {:induction false} ValuePadded(zeros: string, s: string, base: nat)
    requires base >= 1 && AllDigits(s, base) && forall k | 0 <= k < |zeros| :: zeros[k] == '0'
    ensures AllDigits(zeros + s, base) && Value(zeros + s, base) == Value(s, base)
    decreases |zeros| + |s|
  {
    var t := zeros + s;
    if s != "" {
      assert t[..|t| - 1] == zeros + s[..|s| - 1];
      ValuePadded(zeros, s[..|s| - 1], base);
    } else if zeros != "" {
      assert t[..|t| - 1] == zeros[..|zeros| - 1] + "";
      ValuePadded(zeros[..|zeros| - 1], "", base);
      assert 0 * base == 0;
    }
  }

  predicate IsHexDigit(c: char) {
    '0' <= c <= '9' || 'a' <= c <= 'f'
  }

  const HEX := "0123456789abcdef"

  lemma HexDigits(c: char)
    ensures IsHexDigit(c) <==> exists k :: 0 <= k < 16 && HEX[k] == c
  {
    if '0' <= c <= '9' {
      assert HEX[c as int - '0' as int] == c;
    } else if 'a' <= c <= 'f' {
      assert HEX[c as int - 'a' as int + 10] == c;
    }
  }

  /** The digits of a base are its first figures; a number below it is one of them. */
  lemma Figures(n: nat, base: nat)
    requires 2 <= base <= 10 && n < base
    ensures Digits(n, base) == [HEX[n]] && forall c :: IsDigit(c, base) <==> c in HEX[..base]
  {
    forall c ensures IsDigit(c, base) <==> c in HEX[..base] {
      if IsDigit(c, base) {
        assert HEX[..base][c as int - '0' as int] == c;
      }
    }
  }

  /** Sixty-four lower-case hexadecimal digits. */
  predicate IsDigest(s: string) {
    |s| == 64 && forall k | 0 <= k < |s| :: IsHexDigit(s[k])
  }

  // ---------- order ----------

  /** The texts agree before `k`; there `a` ends, or has the smaller character. */
  predicate DiffersAt(a: string, b: string, k: nat) {
    k <= |a| && k < |b| && a[..k] == b[..k] && (k == |a| || a[k] < b[k])
  }

  /** JavaScript's `<` on texts: the first differing character decides, a proper prefix is smaller. */
  ghost predicate Less(a: string, b: string) {
    exists k :: DiffersAt(a, b, k)
  }

  lemma LessStep(a: string, b: string)
    ensures Less(a, b) <==> b != "" && (a == "" || a[0] < b[0] || (a[0] == b[0] && Less(a[1..], b[1..])))
  {
    if a != "" && b != "" && a[0] == b[0] {
      forall k: nat | DiffersAt(a, b, k) ensures k > 0 && DiffersAt(a[1..], b[1..], k - 1) {
        assert a[..k][1..] == a[1..][..k - 1] && b[..k][1..] == b[1..][..k - 1];
      }
      forall k: nat | DiffersAt(a[1..], b[1..], k) ensures DiffersAt(a, b, k + 1) {
        assert a[..k + 1] == [a[0]] + a[1..][..k] && b[..k + 1] == [b[0]] + b[1..][..k];
      }
    } else if b != "" && (a == "" || a[0] < b[0]) {
      assert DiffersAt(a, b, 0);
    } else {
      forall k: nat ensures !DiffersAt(a, b, k) {
        assert 0 < k <= |a| && k < |b| ==> a[..k][0] == a[0] && b[..k][0] == b[0];
      }
    }
  }

  /** The comparison as it is computed, character by character. */
  predicate IsLess(a: string, b: string): (r: bool)
    ensures r <==> Less(a, b)
  {
    LessStep(a, b);
    b != "" && (a == "" || a[0] < b[0] || (a[0] == b[0] && IsLess(a[1..], b[1..])))
  }

  lemma LessIrreflexive(a: string)
    ensures !Less(a, a)
  {
  }

  lemma {:induction false} LessTotal(a: string, b: string)
    ensures Less(a, b) || a == b || Less(b, a)
  {
    LessStep(a, b);
    LessStep(b, a);
    hide Less;
    if a == "" || b == "" {
    } else {
      LessTotal(a[1..], b[1..]);
      if a[0] == b[0] && a[1..] == b[1..] {
        assert a == [a[0]] + a[1..] && b == [b[0]] + b[1..];
      }
    }
  }

  lemma {:induction false} LessTransitive(a: string, b: string, c: string)
    requires Less(a, b) && Less(b, c)
    ensures Less(a, c)
  {
    LessStep(a, b);
    LessStep(b, c);
    LessStep(a, c);
    hide Less;
    if a != "" && b != "" && c != "" && a[0] == b[0] == c[0] {
      LessTransitive(a[1..], b[1..], c[1..]);
    }
  }

  /** Strictly ascending: each neighbour is greater, at the first character in which they differ. */
  ghost predicate Ascending(keys: seq<string>) {
    forall i | 0 < i < |keys| :: Less(keys[i - 1], keys[i])
  }

  lemma {:induction false} AscendingPair(keys: seq<string>, i: nat, j: nat)
    requires Ascending(keys) && i < j < |keys|
    ensures Less(keys[i], keys[j]) && keys[i] != keys[j]
    decreases j
  {
    LessIrreflexive(keys[i]);
    if i + 1 >= j {
    } else {
      AscendingPair(keys, i, j - 1);
      LessTransitive(keys[i], keys[j - 1], keys[j]);
    }
  }

  function Keys(keys: seq<string>): set<string> {
    set k | k in keys
  }

  lemma KeysEmpty(keys: seq<string>)
    ensures Keys(keys) == {} <==> keys == []
  {
    if keys != [] {
      assert keys[0] in Keys(keys);
    }
  }

  lemma KeysAppend(keys: seq<string>, last: string)
    ensures Keys(keys + [last]) == Keys(keys) + {last}
  {
    forall k ensures k in keys + [last] <==> k in keys || k == last {
    }
  }

  /** Two ascending listings of one set are the same listing. */
  lemma {:induction false} AscendingUnique(a: seq<string>, b: seq<string>)
    requires Ascending(a) && Ascending(b)
    requires Keys(a) == Keys(b)
    ensures a == b
    decreases |a|
  {
    KeysEmpty(a);
    KeysEmpty(b);
    if a == [] || b == [] {
    } else {
      hide Less, Keys;
      var m, n := |a| - 1, |b| - 1;
      SameGreatest(a, b);
      SetWithoutLast(a);
      SetWithoutLast(b);
      AscendingUnique(a[..m], b[..n]);
      assert a == a[..m] + [a[m]] && b == b[..n] + [b[n]];
    }
  }

  lemma SameGreatest(a: seq<string>, b: seq<string>)
    requires Ascending(a) && Ascending(b) && a != [] && b != [] && Keys(a) == Keys(b)
    ensures a[|a| - 1] == b[|b| - 1]
  {
    hide Less, Ascending;
    var m, n := |a| - 1, |b| - 1;
    assert a[m] in Keys(a) && b[n] in Keys(b);
    assert b[n] in a && a[m] in b;
    var i :| 0 <= i < |a| && a[i] == b[n];
    var j :| 0 <= j < |b| && b[j] == a[m];
    LastIsGreatest(a, i);
    LastIsGreatest(b, j);
    if a[m] != b[n] {
      LessTransitive(a[m], b[n], a[m]);
      LessIrreflexive(a[m]);
      assert false;
    }
  }

  lemma LastIsGreatest(a: seq<string>, i: nat)
    requires Ascending(a) && i < |a|
    ensures a[i] == a[|a| - 1] || Less(a[i], a[|a| - 1])
  {
    if i < |a| - 1 {
      AscendingPair(a, i, |a| - 1);
    }
  }

  lemma SetWithoutLast(a: seq<string>)
    requires a != [] && Ascending(a)
    ensures Keys(a[..|a| - 1]) == Keys(a) - {a[|a| - 1]}
  {
    var m := |a| - 1;
    forall i | 0 <= i < m ensures a[i] != a[m] {
      AscendingPair(a, i, m);
    }
    assert a == a[..m] + [a[m]];
    forall k ensures k in a[..m] <==> k in a && k != a[m] {
      if k in a && k != a[m] {
        var i :| 0 <= i < |a| && a[i] == k;
        assert a[..m][i] == k;
      }
    }
  }
}
