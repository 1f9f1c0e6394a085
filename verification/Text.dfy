/** Decimal numerals, case folding and payment tokens: the text side of settlement matching. */
module Text {

  /** The decimal digit of `d`. */
  function Digit(d: nat): char
    requires d < 10
  {
    '0' + d as char
  }

  predicate IsDigit(c: char) {
    '0' <= c <= '9'
  }

  /** Decimal rendering of a natural number, without leading zeros. */
  function Numeral(n: nat): (s: string)
    ensures |s| >= 1
    ensures forall i :: 0 <= i < |s| ==> IsDigit(s[i])
  {
    if n < 10 then [Digit(n)] else Numeral(n / 10) + [Digit(n % 10)]
  }

  /** Decimal rendering of an integer, as `str` produces it. */
  function IntText(n: int): string {
    if n < 0 then "-" + Numeral(-n) else Numeral(n)
  }

  lemma {:induction false} NumeralInjective(a: nat, b: nat)
    requires Numeral(a) == Numeral(b)
    ensures a == b
    decreases a
  {
    var s, t := Numeral(a), Numeral(b);
    assert s[|s| - 1] == Digit(a % 10) && t[|t| - 1] == Digit(b % 10);
    if a >= 10 && b >= 10 {
      assert s[..|s| - 1] == Numeral(a / 10) && t[..|t| - 1] == Numeral(b / 10);
      NumeralInjective(a / 10, b / 10);
    }
  }

  lemma IntTextInjective(a: int, b: int)
    requires IntText(a) == IntText(b)
    ensures a == b
  {
    assert a < 0 <==> !IsDigit(IntText(a)[0]);
    assert b < 0 <==> !IsDigit(IntText(b)[0]);
    if a < 0 && b < 0 {
      assert IntText(a)[1..] == Numeral(-a) && IntText(b)[1..] == Numeral(-b);
      NumeralInjective(-a, -b);
    } else if a >= 0 && b >= 0 {
      NumeralInjective(a, b);
    }
  }

  /** Case folding of the ASCII letters, as the case-insensitive containment test applies it. */
  function UpperChar(c: char): char {
    if 'a' <= c <= 'z' then c - 'a' + 'A' else c
  }

  function Upper(s: string): (u: string)
    ensures |u| == |s|
    ensures forall i :: 0 <= i < |s| ==> u[i] == UpperChar(s[i])
  {
    seq(|s|, i requires 0 <= i < |s| => UpperChar(s[i]))
  }

  /** `part` occurs in `text` starting at index `at`. */
  predicate OccursAt(text: string, part: string, at: nat) {
    at + |part| <= |text| && text[at..at + |part|] == part
  }

  predicate Contains(text: string, part: string) {
    exists at: nat | at <= |text| :: OccursAt(text, part, at)
  }

  predicate ContainsIgnoringCase(text: string, part: string) {
    Contains(Upper(text), Upper(part))
  }

  /** The reference a treasurer writes into the transfer reason for buyout `id`. */
  function PaymentToken(id: nat): string {
    "GB-" + Numeral(id) + "-"
  }

  /** A digit run ended by a dash determines where it ends. */
  lemma DigitRunsEndTogether(a: string, b: string, text: string, at: nat)
    requires forall i :: 0 <= i < |a| ==> IsDigit(a[i])
    requires forall i :: 0 <= i < |b| ==> IsDigit(b[i])
    requires OccursAt(text, a + "-", at) && OccursAt(text, b + "-", at)
    ensures a == b
  {
    var x, y := a + "-", b + "-";
    forall i | 0 <= i < |x| && i < |y|
      ensures x[i] == y[i]
    {
      assert text[at..at + |x|][i] == text[at + i] == text[at..at + |y|][i];
    }
    assert x[|a|] == '-' && y[|b|] == '-';
    assert forall i :: 0 <= i < |a| ==> a[i] == x[i];
    assert forall i :: 0 <= i < |b| ==> b[i] == y[i];
    assert |a| == |b|;
  }

  /** At any index of any text at most one buyout's token occurs. */
  lemma TokensSelfDelimiting(text: string, at: nat, a: nat, b: nat)
    requires OccursAt(text, PaymentToken(a), at) && OccursAt(text, PaymentToken(b), at)
    ensures a == b
  {
    TokenTail(text, at, a);
    TokenTail(text, at, b);
    DigitRunsEndTogether(Numeral(a), Numeral(b), text, at + 3);
    NumeralInjective(a, b);
  }

  lemma TokenTail(text: string, at: nat, id: nat)
    requires OccursAt(text, PaymentToken(id), at)
    ensures OccursAt(text, Numeral(id) + "-", at + 3)
  {
    var token, tail := PaymentToken(id), Numeral(id) + "-";
    assert token == "GB-" + tail;
    assert token[3..] == tail;
    assert text[at..at + |token|][3..] == text[at + 3..at + 3 + |tail|];
  }

  /** A token read case-insensitively is the token itself: it has no lower-case letter. */
  lemma TokenIsUpper(id: nat)
    ensures Upper(PaymentToken(id)) == PaymentToken(id)
  {
    var token := PaymentToken(id);
    assert token == "GB-" + Numeral(id) + "-";
    forall i | 0 <= i < |token|
      ensures UpperChar(token[i]) == token[i]
    {
      assert i < 3 || i == |token| - 1 || token[i] == Numeral(id)[i - 3];
    }
  }

  /** The token of buyout `id` stands at `at`, each letter in either case. */
  predicate TokenAt(text: string, id: nat, at: nat) {
    var n := Numeral(id);
    && at + |n| + 4 <= |text|
    && (text[at] == 'G' || text[at] == 'g') && (text[at + 1] == 'B' || text[at + 1] == 'b') && text[at + 2] == '-'
    && text[at + 3..at + 3 + |n|] == n && text[at + 3 + |n|] == '-'
  }

  lemma TokenParts(found: string, n: string)
    requires |found| == |n| + 4
    ensures found == "GB-" + n + "-" <==>
      found[0] == 'G' && found[1] == 'B' && found[2] == '-' && found[3..3 + |n|] == n && found[3 + |n|] == '-'
  {
    var token := "GB-" + n + "-";
    assert token[3..3 + |n|] == n && token[3 + |n|] == '-';
    assert found == found[..3] + found[3..3 + |n|] + [found[3 + |n|]];
    assert found[..3] == [found[0], found[1], found[2]];
  }

  lemma SliceOfSlice(s: string, from: nat, to: nat, a: nat, b: nat)
    requires a <= b && from + b <= to <= |s|
    ensures s[from..to][a..b] == s[from + a..from + b]
  {
    var x, y := s[from..to][a..b], s[from + a..from + b];
    forall i | 0 <= i < b - a
      ensures x[i] == y[i]
    {
      assert x[i] == s[from..to][a + i] == s[from + (a + i)];
      assert y[i] == s[from + a + i];
    }
    assert x == y;
  }

  lemma TokenSlice(u: string, n: string, at: nat)
    requires at + |n| + 4 <= |u|
    ensures u[at..at + |n| + 4] == "GB-" + n + "-" <==>
      u[at] == 'G' && u[at + 1] == 'B' && u[at + 2] == '-' && u[at + 3..at + 3 + |n|] == n && u[at + 3 + |n|] == '-'
  {
    var found := u[at..at + |n| + 4];
    TokenParts(found, n);
    SliceOfSlice(u, at, at + |n| + 4, 3, 3 + |n|);
  }

  /** Case does not matter to digits. */
  lemma UpperDigits(text: string, from: nat, t: string)
    requires from + |t| <= |text| && forall i | 0 <= i < |t| :: IsDigit(t[i])
    ensures Upper(text)[from..from + |t|] == t <==> text[from..from + |t|] == t
  {
    var u := Upper(text);
    forall i | 0 <= i < |t|
      ensures u[from..from + |t|][i] == t[i] <==> text[from..from + |t|][i] == t[i]
    {
      assert u[from + i] == UpperChar(text[from + i]);
    }
  }

  lemma TokenAtIff(text: string, id: nat, at: nat)
    ensures at <= |text| && OccursAt(Upper(text), Upper(PaymentToken(id)), at) <==> TokenAt(text, id, at)
  {
    TokenIsUpper(id);
    var n, u := Numeral(id), Upper(text);
    if at + |n| + 4 <= |text| {
      TokenSlice(u, n, at);
      UpperDigits(text, at + 3, n);
      assert forall k | 0 <= k < |text| :: u[k] == UpperChar(text[k]);
    }
  }

  /** A reason carries a buyout's token exactly when it shows, somewhere, the two letters in either case
      and the buyout's number between two dashes. */
  lemma TokenFoundIff(text: string, id: nat)
    ensures ContainsIgnoringCase(text, PaymentToken(id)) <==> exists at: nat :: TokenAt(text, id, at)
  {
    forall at: nat
      ensures at <= |text| && OccursAt(Upper(text), Upper(PaymentToken(id)), at) <==> TokenAt(text, id, at)
    {
      TokenAtIff(text, id, at);
    }
  }

  /** One buyout's token is found inside another's exactly when the two are the same buyout. */
  lemma TokenInsideTokenIff(a: nat, b: nat)
    ensures ContainsIgnoringCase(PaymentToken(b), PaymentToken(a)) <==> a == b
  {
    TokenIsUpper(a);
    TokenIsUpper(b);
    var ta, tb := PaymentToken(a), PaymentToken(b);
    if Contains(tb, ta) {
      var at: nat :| at <= |tb| && OccursAt(tb, ta, at);
      assert ta == "GB-" + Numeral(a) + "-" && tb == "GB-" + Numeral(b) + "-";
      assert tb[at] == ta[0] == 'G';
      assert forall i :: 3 <= i < |tb| - 1 ==> tb[i] == Numeral(b)[i - 3];
      assert at == 0;
      assert OccursAt(tb, tb, 0);
      TokensSelfDelimiting(tb, 0, a, b);
    }
    if a == b {
      assert OccursAt(tb, ta, 0);
    }
  }
}
