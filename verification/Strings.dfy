/** Decimal numbers and '_'-separated words: the standard-library calls behind token and from_token. */
module Strings {
  import opened Arith
  import opened Options

  // -------------------------------------------------------------- numbers

  predicate IsDigit(c: char) {
    '0' <= c <= '9'
  }

  predicate AllDigits(s: string) {
    forall i :: 0 <= i < |s| ==> IsDigit(s[i])
  }

  function DigitChar(d: nat): (c: char)
    requires d < 10
    ensures IsDigit(c)
  {
    '0' + d as char
  }

  function DigitValue(c: char): (d: nat)
    requires IsDigit(c)
    ensures d < 10
  {
    (c - '0') as nat
  }

  /** std::to_string of an unsigned number. */
  function Decimal(n: nat): (s: string)
    ensures s != "" && AllDigits(s)
  {
    if n < 10 then [DigitChar(n)] else Decimal(n / 10) + [DigitChar(n % 10)]
  }

  /** std::to_string of an int. */
  function SignedDecimal(n: int): string {
    if n < 0 then "-" + Decimal(-n) else Decimal(n)
  }

  function ValueOf(s: string): nat
    requires AllDigits(s)
  {
    if s == "" then 0 else 10 * ValueOf(s[..|s| - 1]) + DigitValue(s[|s| - 1])
  }

  lemma {:induction false} ValueOfDecimal(n: nat)
    ensures ValueOf(Decimal(n)) == n
  {
    if n < 10 {
      assert Decimal(n)[..0] == "";
    } else {
      ValueOfDecimal(n / 10);
      assert Decimal(n)[..|Decimal(n)| - 1] == Decimal(n / 10);
    }
  }

  predicate IsSpace(c: char) {
    c == ' ' || (9 as char) <= c <= (13 as char)
  }

  function SkipSpaces(s: string): string {
    if s != "" && IsSpace(s[0]) then SkipSpaces(s[1..]) else s
  }

  /** The digits that `s` starts with. */
  function LeadingDigits(s: string): (r: string)
    ensures AllDigits(r)
  {
    if s == "" || !IsDigit(s[0]) then "" else [s[0]] + LeadingDigits(s[1..])
  }

  /**
   std::stoull: spaces, an optional sign and digits, whatever follows. Nothing
   when there is no digit or the value is out of range; a minus sign negates
   modulo 2^64.
   */
  function Stoull(s: string): (r: Option<nat>)
    ensures r.Some? ==> r.value < TWO64
  {
    var t := SkipSpaces(s);
    var signed := t != "" && (t[0] == '-' || t[0] == '+');
    var digits := LeadingDigits(if signed then t[1..] else t);
    if digits == "" || ValueOf(digits) >= TWO64 then None
    else if signed && t[0] == '-' then Some((TWO64 - ValueOf(digits)) % TWO64)
    else Some(ValueOf(digits))
  }

  lemma {:induction false} AllDigitsLead(s: string)
    requires AllDigits(s)
    ensures LeadingDigits(s) == s
  {
    if s != "" {
      AllDigitsLead(s[1..]);
      assert s == [s[0]] + s[1..];
    }
  }

  /** A printed size_t is read back. */
  lemma StoullOfDecimal(n: nat)
    requires n < TWO64
    ensures Stoull(Decimal(n)) == Some(n)
  {
    ValueOfDecimal(n);
    AllDigitsLead(Decimal(n));
    assert IsDigit(Decimal(n)[0]);
  }

  lemma {:induction false} DigitsLead(s: string, t: string)
    requires AllDigits(s) && (t == "" || !IsDigit(t[0]))
    ensures LeadingDigits(s + t) == s
  {
    if s == "" {
      assert s + t == t;
    } else {
      assert (s + t)[1..] == s[1..] + t;
      DigitsLead(s[1..], t);
    }
  }

  /** Anything may follow the digits. */
  lemma StoullStops(n: nat, t: string)
    requires n < TWO64 && (t == "" || !IsDigit(t[0]))
    ensures Stoull(Decimal(n) + t) == Some(n)
  {
    ValueOfDecimal(n);
    DigitsLead(Decimal(n), t);
    assert IsDigit((Decimal(n) + t)[0]);
  }

  /** Nothing is read from a number out of range, or from text that does not begin with a space, a sign or a digit. */
  lemma StoullThrows(n: nat, s: string)
    ensures n >= TWO64 ==> Stoull(Decimal(n)) == None
    ensures s == "" || !(IsSpace(s[0]) || IsDigit(s[0]) || s[0] == '+' || s[0] == '-') ==> Stoull(s) == None
  {
    ValueOfDecimal(n);
    AllDigitsLead(Decimal(n));
    assert IsDigit(Decimal(n)[0]);
  }

  lemma NarrowNegated(m: nat)
    requires 0 < m <= 0x8000_0000
    ensures (TWO64 - m) % TWO64 == TWO64 - m && Narrow(TWO64 - m) + m == 0
  {
  }

  /** A printed int is read back, negative ones through the wrap-around of both conversions. */
  lemma StoullOfSignedDecimal(n: int)
    requires -0x8000_0000 <= n < 0x8000_0000
    ensures Stoull(SignedDecimal(n)).Some? && Narrow(Stoull(SignedDecimal(n)).value) == n
  {
    if n >= 0 {
      StoullOfDecimal(n);
    } else {
      var m: nat := -n;
      ValueOfDecimal(m);
      AllDigitsLead(Decimal(m));
      assert SignedDecimal(n)[1..] == Decimal(m);
      NarrowNegated(m);
    }
  }

  // ---------------------------------------------------------------- words

  /** Every word preceded by a separator. */
  function Tagged(words: seq<string>): string {
    if words == [] then "" else "_" + words[0] + Tagged(words[1..])
  }

  /** The words with a separator between neighbours. */
  function Join(words: seq<string>): string
    requires words != []
  {
    words[0] + Tagged(words[1..])
  }

  lemma {:induction false} TaggedConcat(a: seq<string>, b: seq<string>)
    ensures Tagged(a + b) == Tagged(a) + Tagged(b)
  {
    if a == [] {
      assert a + b == b;
    } else {
      assert (a + b)[1..] == a[1..] + b;
      TaggedConcat(a[1..], b);
    }
  }

  lemma JoinConcat(a: seq<string>, b: seq<string>)
    requires a != []
    ensures Join(a + b) == Join(a) + Tagged(b)
  {
    assert (a + b)[1..] == a[1..] + b;
    TaggedConcat(a[1..], b);
  }

  /** The position of the first separator, or the length of `s`. */
  function Find(s: string): (k: nat)
    ensures k <= |s| && (k < |s| ==> s[k] == '_')
    ensures forall i :: 0 <= i < k ==> s[i] != '_'
  {
    if s == "" || s[0] == '_' then 0 else 1 + Find(s[1..])
  }

  /** The pieces of `s` between separators. */
  function Split(s: string): (words: seq<string>)
    ensures words != []
    decreases |s|
  {
    var k := Find(s);
    if k == |s| then [s] else [s[..k]] + Split(s[k + 1..])
  }

  lemma SplitOne(s: string)
    ensures Split(s) == if Find(s) == |s| then [s] else [s[..Find(s)]] + Split(s[Find(s) + 1..])
  {
    hide Find;
  }

  predicate Clean(word: string) {
    forall i :: 0 <= i < |word| ==> word[i] != '_'
  }

  lemma FindClean(word: string, rest: string)
    requires Clean(word) && (rest == "" || rest[0] == '_')
    ensures Find(word + rest) == |word|
  {
    var s := word + rest;
    assert forall i :: 0 <= i < |word| ==> s[i] == word[i];
    assert rest != "" ==> s[|word|] == '_';
  }

  lemma SplitFirst(word: string, rest: string)
    requires Clean(word)
    ensures Split(word + ("_" + rest)) == [word] + Split(rest)
  {
    var s := word + ("_" + rest);
    FindClean(word, "_" + rest);
    assert s[..|word|] == word && s[|word| + 1..] == rest;
  }

  lemma SplitWord(word: string)
    requires Clean(word)
    ensures Split(word) == [word]
  {
    assert word + "" == word;
    FindClean(word, "");
  }

  lemma JoinRest(words: seq<string>)
    requires |words| > 1
    ensures Join(words) == words[0] + ("_" + Join(words[1..]))
  {
    var rest := words[1..];
    assert Tagged(rest) == "_" + rest[0] + Tagged(rest[1..]) == "_" + (rest[0] + Tagged(rest[1..]));
  }

  /** Splitting undoes joining. */
  lemma {:induction false} SplitJoin(words: seq<string>)
    requires words != [] && forall i :: 0 <= i < |words| ==> Clean(words[i])
    ensures Split(Join(words)) == words
  {
    hide Split;
    if |words| == 1 {
      assert Join(words) == words[0] + "" == words[0];
      SplitWord(words[0]);
    } else {
      hide Join;
      SplitJoin(words[1..]);
      JoinRest(words);
      SplitFirst(words[0], Join(words[1..]));
      assert words == [words[0]] + words[1..];
    }
  }
}
