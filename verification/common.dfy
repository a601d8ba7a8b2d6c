/** Vocabulary shared by the whole model: optional values, Python's
    truthiness of optional strings and lists, decimal rendering of natural
    numbers (Python's `{n}` and `{n:02d}`), and the character-wise text order
    the task store sorts its timestamp column by. */
module Common {

  datatype Option<+T> = None | Some(value: T)

  /** `if s:` on an optional string: present and not the empty string. */
  predicate Truthy(s: Option<string>) {
    s.Some? && s.value != []
  }

  /** `if l:` on an optional list: present and not the empty list. */
  predicate TruthyList<T>(l: Option<seq<T>>) {
    l.Some? && l.value != []
  }

  // ---------------------------------------------------------------------------
  // Decimal numerals
  // ---------------------------------------------------------------------------

  predicate IsDigit(c: char) {
    '0' <= c <= '9'
  }

  predicate AllDigits(s: string) {
    forall i :: 0 <= i < |s| ==> IsDigit(s[i])
  }

  function DigitChar(d: nat): (c: char)
    requires d < 10
    ensures IsDigit(c)
  {
    (48 + d) as char
  }

  function DigitValue(c: char): nat
    requires IsDigit(c)
  {
    c as int - 48
  }

  /** Python's `str(n)` for a non-negative integer. */
  function Decimal(n: nat): (s: string)
    ensures |s| >= 1
    ensures AllDigits(s)
    ensures n < 10 <==> |s| == 1
    ensures n < 100 <==> |s| <= 2
    ensures n >= 1 ==> s[0] != '0'
    decreases n
  {
    if n < 10 then [DigitChar(n)] else Decimal(n / 10) + [DigitChar(n % 10)]
  }

  /** Python's `f"{n:02d}"` for a non-negative integer: exactly two digits
      below 100 (left-padded with a zero), the plain decimal text from 100
      on, so never a leading zero beyond the padding. */
  function ZeroPad2(n: nat): (s: string)
    ensures |s| >= 2
    ensures AllDigits(s)
    ensures n < 100 <==> |s| == 2
    ensures |s| == 2 || s[0] != '0'
  {
    if n < 10 then "0" + Decimal(n) else Decimal(n)
  }

  /** Reads a string of digits back as a number (the inverse of `Decimal`). */
  function ParseDecimal(s: string): nat
    requires AllDigits(s)
  {
    if s == [] then 0 else ParseDecimal(s[..|s| - 1]) * 10 + DigitValue(s[|s| - 1])
  }

  lemma {:induction false} ParseDecimalOfDecimal(n: nat)
    ensures ParseDecimal(Decimal(n)) == n
    decreases n
  {
    var s := Decimal(n);
    if n < 10 {
      assert s[..0] == [];
    } else {
      assert s[..|s| - 1] == Decimal(n / 10);
      ParseDecimalOfDecimal(n / 10);
    }
  }

  /** The padded form reads back as the same number, so distinct serial
      numbers never render alike. */
  lemma ParseDecimalOfZeroPad2(n: nat)
    ensures ParseDecimal(ZeroPad2(n)) == n
  {
    ParseDecimalOfDecimal(n);
    if n < 10 {
      var s := ZeroPad2(n);
      assert s[..1] == "0";
      assert s[..1][..0] == [];
      assert s[1] == Decimal(n)[0];
      assert Decimal(n)[..0] == [];
    }
  }

  lemma ZeroPad2Injective(a: nat, b: nat)
    requires ZeroPad2(a) == ZeroPad2(b)
    ensures a == b
  {
    ParseDecimalOfZeroPad2(a);
    ParseDecimalOfZeroPad2(b);
  }

  // ---------------------------------------------------------------------------
  // Text order (SQLite's default BINARY collation on TEXT columns; for the
  // ISO-8601 timestamps the store holds this is chronological order)
  // ---------------------------------------------------------------------------

  predicate TextLe(a: string, b: string)
    decreases |a|
  {
    a == [] || (b != [] && (a[0] < b[0] || (a[0] == b[0] && TextLe(a[1..], b[1..]))))
  }

  lemma {:induction false} TextLeReflexive(a: string)
    ensures TextLe(a, a)
    decreases |a|
  {
    if a != [] {
      TextLeReflexive(a[1..]);
    }
  }

  lemma {:induction false} TextLeTotal(a: string, b: string)
    ensures TextLe(a, b) || TextLe(b, a)
    decreases |a|
  {
    if a != [] && b != [] && a[0] == b[0] {
      TextLeTotal(a[1..], b[1..]);
    }
  }

  lemma {:induction false} TextLeTransitive(a: string, b: string, c: string)
    requires TextLe(a, b) && TextLe(b, c)
    ensures TextLe(a, c)
    decreases |a|
  {
    if a != [] && b != [] && c != [] && a[0] == b[0] && b[0] == c[0] {
      TextLeTransitive(a[1..], b[1..], c[1..]);
    }
  }

  // ---------------------------------------------------------------------------
  // Substrings
  // ---------------------------------------------------------------------------

  /** `t in s` on Python strings: `t` occurs contiguously inside `s`. */
  ghost predicate Infix(t: string, s: string) {
    exists p :: OccursAt(t, s, p)
  }

  predicate OccursAt(t: string, s: string, p: int) {
    0 <= p && p + |t| <= |s| && s[p..p + |t|] == t
  }

  lemma InfixOfConcat(t: string, s: string, a: string, b: string)
    requires Infix(t, s)
    ensures Infix(t, a + s + b)
  {
    var p :| OccursAt(t, s, p);
    assert (a + s + b)[|a| + p..|a| + p + |t|] == s[p..p + |t|];
    assert OccursAt(t, a + s + b, |a| + p);
  }

  lemma InfixSelf(t: string)
    ensures Infix(t, t)
  {
    assert t[0..|t|] == t;
    assert OccursAt(t, t, 0);
  }
}
