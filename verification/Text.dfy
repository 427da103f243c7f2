/** Characters, blanks, lines and decimal numerals, as the Go standard library treats them. */
module Text {
  import opened Wrappers

  // ----- blanks -----

  predicate IsSpace(c: char) {
    || c == ' ' || '\t' <= c <= '\r' || c == '\U{85}' || c == '\U{a0}' || c == '\U{1680}'
    || '\U{2000}' <= c <= '\U{200a}' || c == '\U{2028}' || c == '\U{2029}' || c == '\U{202f}'
    || c == '\U{205f}' || c == '\U{3000}'
  }

  function TrimLeft(s: string): string {
    if s != "" && IsSpace(s[0]) then TrimLeft(s[1..]) else s
  }

  function TrimRight(s: string): string {
    if s != "" && IsSpace(s[|s| - 1]) then TrimRight(s[..|s| - 1]) else s
  }

  function Trim(s: string): string {
    TrimRight(TrimLeft(s))
  }

  lemma {:induction false} TrimRightIsPrefix(s: string)
    ensures TrimRight(s) <= s
  {
    if s != "" && IsSpace(s[|s| - 1]) {
      TrimRightIsPrefix(s[..|s| - 1]);
    }
  }

  /** Trimming a line that starts with a visible character only shortens it. */
  lemma TrimIsPrefix(s: string)
    requires s == "" || !IsSpace(s[0])
    ensures Trim(s) <= s
  {
    TrimRightIsPrefix(s);
  }

  /** A line with visible ends survives its line break. */
  lemma TrimLineBreak(s: string)
    requires s != "" && !IsSpace(s[0]) && !IsSpace(s[|s| - 1])
    ensures Trim(s) == s && Trim(s + "\n") == s
  {
    assert (s + "\n")[..|s|] == s;
    assert (s + "\n")[|s|] == '\n';
  }

  /** Blanks around a text are dropped, whatever their number, and nothing else. */
  lemma {:induction false} TrimDropsBlanks(before: string, s: string, after: string)
    requires AllBlank(before) && AllBlank(after)
    requires s == "" || (!IsSpace(s[0]) && !IsSpace(s[|s| - 1]))
    ensures Trim(before + s + after) == s
  {
    if before != "" {
      var text := before + s + after;
      assert text[1..] == before[1..] + s + after;
      TrimDropsBlanks(before[1..], s, after);
    } else if s != "" {
      assert before + s + after == s + after;
      TrimRightDropsBlanks(s, after);
    } else {
      assert before + s + after == after;
      TrimLeftOfBlanks(after);
    }
  }

  ghost predicate AllBlank(s: string) {
    forall i :: 0 <= i < |s| ==> IsSpace(s[i])
  }

  lemma {:induction false} TrimRightDropsBlanks(s: string, after: string)
    requires AllBlank(after) && s != "" && !IsSpace(s[|s| - 1])
    ensures TrimRight(s + after) == s
    decreases |after|
  {
    if after == "" {
      assert s + after == s;
    } else {
      assert (s + after)[..|s + after| - 1] == s + after[..|after| - 1];
      TrimRightDropsBlanks(s, after[..|after| - 1]);
    }
  }

  lemma {:induction false} TrimLeftOfBlanks(s: string)
    requires AllBlank(s)
    ensures TrimLeft(s) == ""
  {
    if s != "" {
      TrimLeftOfBlanks(s[1..]);
    }
  }

  /** Of the ASCII characters, the blank, tabs, line feeds, form feed and carriage return count as blanks. */
  lemma AsciiBlanks(c: char)
    requires c < '\U{80}'
    ensures IsSpace(c) <==> c in " \t\n\U{0B}\U{0C}\r"
  {
    assert " \t\n\U{0B}\U{0C}\r"[1] == '\t';
    if IsSpace(c) && c != ' ' {
      assert c == '\t' || c == '\n' || c == '\U{0B}' || c == '\U{0C}' || c == '\r';
      assert " \t\n\U{0B}\U{0C}\r"[c as int - '\t' as int + 1] == c;
    }
  }

  // ----- decimal numerals -----

  predicate IsDigit(c: char) {
    '0' <= c <= '9'
  }

  ghost predicate AllDigits(s: string) {
    forall i :: 0 <= i < |s| ==> IsDigit(s[i])
  }

  function DigitOf(d: nat): char
    requires d < 10
  {
    ('0' as int + d) as char
  }

  function Numeral(n: nat): string {
    if n < 10 then [DigitOf(n)] else Numeral(n / 10) + [DigitOf(n % 10)]
  }

  /** The last `k` digits of `n`, zero-padded. */
  function Padded(n: nat, k: nat): string {
    if k == 0 then "" else Padded(n / 10, k - 1) + [DigitOf(n % 10)]
  }

  function NumeralValue(s: string): nat
    requires forall i :: 0 <= i < |s| ==> IsDigit(s[i])
  {
    if s == "" then 0
    else
      assert IsDigit(s[|s| - 1]);
      10 * NumeralValue(s[..|s| - 1]) + (s[|s| - 1] as int - '0' as int)
  }

  function Pow10(k: nat): (p: nat)
    ensures 0 < p
  {
    if k == 0 then 1 else 10 * Pow10(k - 1)
  }

  lemma AppendDigit(s: string, d: nat)
    requires AllDigits(s) && d < 10
    ensures AllDigits(s + [DigitOf(d)])
    ensures NumeralValue(s + [DigitOf(d)]) == 10 * NumeralValue(s) + d
  {
    var t := s + [DigitOf(d)];
    assert t[..|t| - 1] == s;
  }

  lemma {:induction false} NumeralReadsBack(n: nat)
    ensures Numeral(n) != "" && AllDigits(Numeral(n))
    ensures NumeralValue(Numeral(n)) == n
  {
    if n < 10 {
      AppendDigit("", n);
      assert "" + [DigitOf(n)] == Numeral(n);
    } else {
      NumeralReadsBack(n / 10);
      AppendDigit(Numeral(n / 10), n % 10);
    }
  }

  lemma {:induction false} PaddedReadsBack(n: nat, k: nat)
    requires n < Pow10(k)
    ensures |Padded(n, k)| == k && AllDigits(Padded(n, k))
    ensures NumeralValue(Padded(n, k)) == n
  {
    if k != 0 {
      PaddedReadsBack(n / 10, k - 1);
      AppendDigit(Padded(n / 10, k - 1), n % 10);
    }
  }

  lemma OneMoreDigit(a: nat, p: nat, b: nat, d: nat)
    ensures 10 * (a * p + b) + d == a * (10 * p) + (10 * b + d)
  {
    assert 10 * (a * p) == a * (10 * p);
  }

  lemma LastDigit(s: string)
    requires AllDigits(s) && s != ""
    ensures NumeralValue(s) == 10 * NumeralValue(s[..|s| - 1]) + (s[|s| - 1] as int - '0' as int)
  {
  }

  lemma {:induction false} ConcatenatedDigits(s: string, t: string)
    requires AllDigits(s) && AllDigits(t)
    ensures AllDigits(s + t) && NumeralValue(s + t) == NumeralValue(s) * Pow10(|t|) + NumeralValue(t)
  {
    if t == "" {
      assert s + t == s;
    } else {
      var front, last := t[..|t| - 1], t[|t| - 1];
      ConcatenatedDigits(s, front);
      assert (s + t)[..|s + t| - 1] == s + front;
      LastDigit(s + t);
      LastDigit(t);
      OneMoreDigit(NumeralValue(s), Pow10(|front|), NumeralValue(front), last as int - '0' as int);
    }
  }

  // ----- runs of characters -----

  /** The length of the longest prefix whose characters all satisfy `p`. */
  function Span(s: string, p: char -> bool): (n: nat)
    ensures n <= |s|
    ensures forall i :: 0 <= i < n ==> p(s[i])
    ensures n < |s| ==> !p(s[n])
  {
    if s != "" && p(s[0]) then
      var n := 1 + Span(s[1..], p);
      assert forall i :: 1 <= i < n ==> s[i] == s[1..][i - 1];
      n
    else 0
  }

  lemma SpanIs(s: string, p: char -> bool, n: nat)
    requires n <= |s| && (forall i :: 0 <= i < n ==> p(s[i])) && (n < |s| ==> !p(s[n]))
    ensures Span(s, p) == n
  {
  }

  /** An unsigned decimal that fits 32 bits; anything else is an error. */
  function ParseUint32(s: string): Result<nat> {
    if s != "" && Span(s, IsDigit) == |s| && NumeralValue(s) < TWO_TO_THE_32 then Ok(NumeralValue(s)) else Err
  }

  /** A printed number parses as itself if it fits 32 bits, and is an error otherwise. */
  lemma NumeralParses(n: nat)
    ensures ParseUint32(Numeral(n)) == if n < TWO_TO_THE_32 then Ok(n) else Err
  {
    NumeralReadsBack(n);
    SpanIs(Numeral(n), IsDigit, |Numeral(n)|);
  }

  /** Nothing but digits parses. */
  lemma OnlyDigitsParse(s: string)
    ensures ParseUint32(s).Ok? ==> s != "" && AllDigits(s)
  {
  }
}
