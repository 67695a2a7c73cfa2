/** The string operations the program takes from Go: splitting, trimming and decimal printing. */
module Text {

  // --- white space, as unicode.IsSpace defines it ---

  predicate IsSpace(c: char) {
    || c in {'\t', '\n', '\U{0B}', '\U{0C}', '\r', ' ', '\U{85}', '\U{A0}', '\U{1680}'}
    || '\U{2000}' <= c <= '\U{200A}'
    || c in {'\U{2028}', '\U{2029}', '\U{202F}', '\U{205F}', '\U{3000}'}
  }

  function TrimLeft(s: string): string {
    if s != "" && IsSpace(s[0]) then TrimLeft(s[1..]) else s
  }

  function TrimRight(s: string): string {
    if s != "" && IsSpace(s[|s| - 1]) then TrimRight(s[..|s| - 1]) else s
  }

  function Trim(s: string): string {
    TrimRight(TrimLeft(s))
  }

  predicate EndsInSpace(s: string) {
    s != "" && IsSpace(s[|s| - 1])
  }

  predicate AllSpace(s: string) {
    forall c :: c in s ==> IsSpace(c)
  }

  // A text that neither begins nor ends in white space.
  predicate Tight(s: string) {
    s == "" || (!IsSpace(s[0]) && !IsSpace(s[|s| - 1]))
  }

  lemma {:induction false} TrimLeftDrops(a: string, s: string)
    requires AllSpace(a) && (s == "" || !IsSpace(s[0]))
    ensures TrimLeft(a + s) == s
  {
    if a == "" {
      assert a + s == s;
    } else {
      assert a[0] in a && forall c :: c in a[1..] ==> c in a;
      TrimLeftDrops(a[1..], s);
      assert (a + s)[1..] == a[1..] + s;
    }
  }

  lemma {:induction false} TrimRightDrops(s: string, b: string)
    requires AllSpace(b) && (s == "" || !IsSpace(s[|s| - 1]))
    ensures TrimRight(s + b) == s
  {
    if b == "" {
      assert s + b == s;
    } else {
      var last := |b| - 1;
      assert b[last] in b && forall c :: c in b[..last] ==> c in b;
      TrimRightDrops(s, b[..last]);
      assert (s + b)[..|s + b| - 1] == s + b[..last];
    }
  }

  /** Trimming takes off exactly the white space around a text. */
  lemma TrimPadded(a: string, s: string, b: string)
    requires AllSpace(a) && Tight(s) && AllSpace(b)
    ensures Trim(a + s + b) == s
  {
    if s == "" {
      assert a + s + b == (a + b) + "";
      TrimLeftDrops(a + b, "");
    } else {
      assert a + s + b == a + (s + b);
      assert (s + b)[0] == s[0];
      TrimLeftDrops(a, s + b);
      TrimRightDrops(s, b);
    }
  }

  lemma {:induction false} TrimLeftResult(s: string) returns (a: string)
    ensures s == a + TrimLeft(s) && AllSpace(a) && (TrimLeft(s) == "" || !IsSpace(TrimLeft(s)[0]))
  {
    if s == "" || !IsSpace(s[0]) {
      a := "";
    } else {
      a := TrimLeftResult(s[1..]);
      a := [s[0]] + a;
    }
  }

  lemma {:induction false} TrimRightRest(s: string) returns (b: string)
    ensures s == TrimRight(s) + b && AllSpace(b)
  {
    if !EndsInSpace(s) {
      b := "";
    } else {
      b := TrimRightRest(s[..|s| - 1]);
      b := b + [s[|s| - 1]];
    }
  }

  /** Every text is its trimmed text with white space around it, and that has none at its ends. */
  lemma TrimResult(s: string) returns (a: string, b: string)
    ensures s == a + Trim(s) + b && AllSpace(a) && AllSpace(b) && Tight(Trim(s))
  {
    a := TrimLeftResult(s);
    b := TrimRightRest(TrimLeft(s));
    TrimRightResult(TrimLeft(s));
  }

  // What is trimmed on the right never ends in a space, and only loses characters.
  lemma {:induction false} TrimRightResult(s: string)
    ensures !EndsInSpace(TrimRight(s))
    ensures TrimRight(s) <= s
    ensures !EndsInSpace(s) <==> TrimRight(s) == s
  {
    if !EndsInSpace(s) {
    } else {
      TrimRightResult(s[..|s| - 1]);
      assert s[..|s| - 1] <= s;
    }
  }

  lemma {:induction false} TrimLeftKeeps(s: string, c: char)
    requires c !in s
    ensures c !in TrimLeft(s)
  {
    if s == "" || !IsSpace(s[0]) {
    } else {
      TrimLeftKeeps(s[1..], c);
    }
  }

  lemma TrimKeeps(s: string, c: char)
    requires c !in s
    ensures c !in Trim(s)
  {
    TrimLeftKeeps(s, c);
    TrimRightResult(TrimLeft(s));
  }

  // Trimming a text that starts and ends, before x, in visible characters only touches x.
  lemma {:induction false} TrimAfter(p: string, x: string)
    requires p != "" && !IsSpace(p[0]) && !IsSpace(p[|p| - 1])
    ensures Trim(p + x) == p + TrimRight(x)
  {
    assert TrimLeft(p + x) == p + x;
    if !EndsInSpace(x) {
    } else {
      TrimAfter(p, x[..|x| - 1]);
      assert TrimLeft(p + x[..|x| - 1]) == p + x[..|x| - 1];
      assert (p + x)[..|p + x| - 1] == p + x[..|x| - 1];
    }
  }

  // --- splitting at a separator character ---

  function Split(s: string, sep: char): (parts: seq<string>)
    ensures parts != []
  {
    if s == "" then [""]
    else if s[0] == sep then [""] + Split(s[1..], sep)
    else
      var rest := Split(s[1..], sep);
      [[s[0]] + rest[0]] + rest[1..]
  }

  lemma {:induction false} SplitWhole(s: string, sep: char)
    requires sep !in s
    ensures Split(s, sep) == [s]
  {
    if s == "" {
    } else {
      SplitWhole(s[1..], sep);
      assert [s[0]] + s[1..] == s;
    }
  }

  lemma {:induction false} SplitFirst(a: string, sep: char, rest: string)
    requires sep !in a
    ensures Split(a + [sep] + rest, sep) == [a] + Split(rest, sep)
  {
    var s := a + [sep] + rest;
    if a == "" {
      assert s[1..] == rest;
    } else {
      SplitFirst(a[1..], sep, rest);
      assert s[1..] == a[1..] + [sep] + rest;
      assert [a[0]] + a[1..] == a;
      assert ([a[1..]] + Split(rest, sep))[1..] == Split(rest, sep);
    }
  }

  lemma {:induction false} SplitParts(s: string, sep: char)
    ensures forall part | part in Split(s, sep) :: sep !in part
  {
    if s == "" {
    } else {
      SplitParts(s[1..], sep);
      var rest := Split(s[1..], sep);
      assert rest[0] in rest;
      assert forall part | part in rest[1..] :: part in rest;
    }
  }

  // The position of the first sep in s, or |s| when there is none.
  function IndexOf(s: string, sep: char): (k: nat)
    ensures k <= |s|
    ensures sep !in s[..k]
    ensures k < |s| ==> s[k] == sep
  {
    if s == "" || s[0] == sep then 0 else 1 + IndexOf(s[1..], sep)
  }

  lemma {:induction false} IndexOfEnds(left: string, sep: char, rest: string)
    requires sep !in left && (rest == "" || rest[0] == sep)
    ensures IndexOf(left + rest, sep) == |left|
  {
    if left == "" {
      assert left + rest == rest;
    } else {
      assert left[0] in left && (left + rest)[1..] == left[1..] + rest;
      IndexOfEnds(left[1..], sep, rest);
    }
  }

  // --- decimal printing of naturals ---

  function Digit(d: nat): (c: char)
    requires d < 10
    ensures c as int == '0' as int + d
  {
    ('0' as int + d) as char
  }

  function Decimal(n: nat): (s: string)
    ensures s != ""
  {
    if n < 10 then [Digit(n)] else Decimal(n / 10) + [Digit(n % 10)]
  }

  predicate IsDigit(c: char) {
    '0' <= c <= '9'
  }

  predicate AllDigits(s: string) {
    s != "" && forall c :: c in s ==> IsDigit(c)
  }

  /** The number that digits stand for, most significant digit first. */
  function DigitsValue(s: string): nat
    requires forall c :: c in s ==> IsDigit(c)
  {
    if s == "" then 0
    else
      var last := |s| - 1;
      assert s[last] in s && IsDigit(s[last]) && forall c :: c in s[..last] ==> c in s;
      10 * DigitsValue(s[..last]) + (s[last] as int - '0' as int)
  }

  /** Decimal prints digits that stand for the number, without leading zeros. */
  lemma {:induction false} DecimalValue(n: nat)
    ensures AllDigits(Decimal(n)) && DigitsValue(Decimal(n)) == n
    ensures Decimal(n)[0] == '0' <==> n == 0
  {
    var s := Decimal(n);
    if n < 10 {
      assert s[..|s| - 1] == "";
    } else {
      DecimalValue(n / 10);
      var init := Decimal(n / 10);
      assert s == init + [Digit(n % 10)] && s[..|s| - 1] == init;
      assert forall c :: c in s ==> c in init || c == Digit(n % 10);
      assert s[0] == init[0];
    }
  }

  lemma {:induction false} DecimalHasNoDash(n: nat)
    ensures '-' !in Decimal(n)
  {
    if n < 10 {
    } else {
      DecimalHasNoDash(n / 10);
    }
  }

  lemma {:induction false} DecimalInjective(m: nat, n: nat)
    requires Decimal(m) == Decimal(n)
    ensures m == n
  {
    if m < 10 || n < 10 {
      assert m < 10 && n < 10 ==> Decimal(m)[0] == Decimal(n)[0];
    } else {
      var a, b := Decimal(m / 10), Decimal(n / 10);
      assert Decimal(m)[..|a|] == a && Decimal(n)[..|b|] == b;
      DecimalInjective(m / 10, n / 10);
      assert Decimal(m)[|a|] == Decimal(n)[|b|];
    }
  }
}
