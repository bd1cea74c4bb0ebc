/**
 * The few Ruby `String` operations the harness relies on: `strip`,
 * `split(/\s+/)`, `downcase`, `Integer#to_s`, `String#to_i` and `Array#join`.
 */
module Text {
  import opened Wrappers

  /** The characters Ruby's `\s` matches: space, \t, \n, \v, \f and \r. */
  predicate IsSpace(c: char) {
    c == ' ' || c == '\t' || c == '\n' || c == 11 as char || c == 12 as char || c == '\r'
  }

  predicate IsDigit(c: char) {
    '0' <= c <= '9'
  }

  predicate AllDigits(s: string) {
    forall i :: 0 <= i < |s| ==> IsDigit(s[i])
  }

  predicate NoSpace(s: string) {
    forall i :: 0 <= i < |s| ==> !IsSpace(s[i])
  }

  // ---------------------------------------------------------------- strip

  /** `lstrip`: drops the leading whitespace. */
  function TrimStart(s: string): (r: string)
    ensures |r| <= |s| && r == s[|s| - |r|..]
    ensures r == [] || !IsSpace(r[0])
    ensures forall i :: 0 <= i < |s| - |r| ==> IsSpace(s[i])
  {
    if s != [] && IsSpace(s[0]) then
      var r := TrimStart(s[1..]);
      TrimStartStep(s, r);
      r
    else s
  }

  lemma TrimStartStep(s: string, r: string)
    requires s != [] && IsSpace(s[0])
    requires |r| <= |s| - 1 && r == s[1..][|s| - 1 - |r|..]
    requires forall i :: 0 <= i < |s| - 1 - |r| ==> IsSpace(s[1..][i])
    ensures r == s[|s| - |r|..]
    ensures forall i :: 0 <= i < |s| - |r| ==> IsSpace(s[i])
  {
    forall i | 0 < i < |s| - |r| ensures IsSpace(s[i]) {
      assert s[i] == s[1..][i - 1];
    }
  }

  /** `rstrip`: drops the trailing whitespace. */
  function TrimEnd(s: string): (r: string)
    ensures |r| <= |s| && r == s[..|r|]
    ensures r == [] || !IsSpace(r[|r| - 1])
    ensures forall i :: |r| <= i < |s| ==> IsSpace(s[i])
  {
    if s != [] && IsSpace(s[|s| - 1]) then TrimEnd(s[..|s| - 1]) else s
  }

  /** `strip`: the part of `s` between its leading and its trailing whitespace. */
  function Strip(s: string): (r: string)
    ensures |r| <= |s|
    ensures r == [] <==> forall i :: 0 <= i < |s| ==> IsSpace(s[i])
    ensures r != [] ==> !IsSpace(r[0]) && !IsSpace(r[|r| - 1])
  {
    TrimEnd(TrimStart(s))
  }

  // ---------------------------------------------------------------- split

  /** The longest prefix of `s` without whitespace. */
  function Token(s: string): (w: string)
    ensures |w| <= |s| && w == s[..|w|] && NoSpace(w)
    ensures |w| < |s| ==> IsSpace(s[|w|])
  {
    if s != [] && !IsSpace(s[0]) then [s[0]] + Token(s[1..]) else []
  }

  /** `split(/\s+/)` of a string with no leading whitespace: its maximal runs of non-space characters. */
  function Words(s: string): (ws: seq<string>)
    ensures forall k :: 0 <= k < |ws| ==> ws[k] != [] && NoSpace(ws[k])
    decreases |s|
  {
    var t := TrimStart(s);
    if t == [] then []
    else
      var w := Token(t);
      assert w != [] by { assert |w| < |t| ==> IsSpace(t[|w|]); }
      var ws := Words(t[|w|..]);
      WordsPrepend(w, ws);
      [w] + ws
  }

  /** A word in front of a list of words keeps every entry a non-empty run of non-space characters. */
  lemma WordsPrepend(w: string, ws: seq<string>)
    requires w != [] && NoSpace(w)
    requires forall k :: 0 <= k < |ws| ==> ws[k] != [] && NoSpace(ws[k])
    ensures forall k :: 0 <= k < |[w] + ws| ==> ([w] + ws)[k] != [] && NoSpace(([w] + ws)[k])
  {
    var r := [w] + ws;
    forall k | 0 <= k < |r| ensures r[k] != [] && NoSpace(r[k]) {
      if k > 0 { assert r[k] == ws[k - 1]; }
    }
  }

  /** A string that starts with a non-space character has a first word: its leading token. */
  lemma WordsFirst(s: string)
    requires s != [] && !IsSpace(s[0])
    ensures Words(s) != [] && Words(s)[0] == Token(s)
  {
    assert TrimStart(s) == s;
  }

  /** `words.join(' ')`. */
  function Unwords(ws: seq<string>): string {
    if ws == [] then "" else if |ws| == 1 then ws[0] else ws[0] + " " + Unwords(ws[1..])
  }

  lemma {:induction false} TokenPrefix(w: string, rest: string)
    requires NoSpace(w)
    requires rest == [] || IsSpace(rest[0])
    ensures Token(w + rest) == w
    decreases |w|
  {
    if w != [] {
      assert (w + rest)[1..] == w[1..] + rest;
      TokenPrefix(w[1..], rest);
    }
  }

  /** `split` sees a string only after its leading whitespace is dropped. */
  lemma WordsSameTrim(s: string, t: string)
    requires TrimStart(s) == TrimStart(t)
    ensures Words(s) == Words(t)
  {
  }

  lemma {:induction false} WordsSkipSpace(c: char, t: string)
    requires IsSpace(c)
    ensures Words([c] + t) == Words(t)
  {
    TrimStartSpace(c, t);
    WordsSameTrim([c] + t, t);
  }

  lemma TrimStartSpace(c: char, t: string)
    requires IsSpace(c)
    ensures TrimStart([c] + t) == TrimStart(t)
  {
    var s := [c] + t;
    assert s != [] && IsSpace(s[0]) && s[1..] == t;
  }

  /** The words of a string that starts with the word `w` followed by `rest`. */
  lemma {:induction false} WordsCons(w: string, rest: string)
    requires w != [] && NoSpace(w)
    requires rest == [] || IsSpace(rest[0])
    ensures Words(w + rest) == [w] + Words(rest)
  {
    var s := w + rest;
    assert s[0] == w[0];
    assert TrimStart(s) == s;
    TokenPrefix(w, rest);
    assert s[|w|..] == rest;
  }

  lemma {:induction false} TailStart(ws: seq<string>)
    requires ws != [] && ws[0] != []
    ensures Unwords(ws) != [] && Unwords(ws)[0] == ws[0][0]
  {
  }

  /** Splitting words joined by single spaces gives the words back. */
  lemma {:induction false} WordsUnwords(ws: seq<string>)
    requires forall k :: 0 <= k < |ws| ==> ws[k] != [] && NoSpace(ws[k])
    ensures Words(Unwords(ws)) == ws
    decreases |ws|
  {
    if ws == [] {
    } else if |ws| == 1 {
      WordsSingle(ws[0]);
    } else {
      var w, rest := ws[0], ws[1..];
      assert ws == [w] + rest;
      assert w != [] && NoSpace(w);
      var tail := Unwords(rest);
      assert Unwords(ws) == w + ([' '] + tail);
      WordsUnwords(rest);
      WordsJoinStep(w, tail, rest);
    }
  }

  lemma WordsSingle(w: string)
    requires w != [] && NoSpace(w)
    ensures Words(w) == [w]
  {
    assert w + "" == w;
    WordsCons(w, "");
  }

  /** A word joined by a space to a string whose words are `rest`. */
  lemma WordsJoinStep(w: string, tail: string, rest: seq<string>)
    requires w != [] && NoSpace(w) && Words(tail) == rest
    ensures Words(w + ([' '] + tail)) == [w] + rest
  {
    WordsCons(w, [' '] + tail);
    WordsSkipSpace(' ', tail);
  }

  // ------------------------------------------------------------- downcase

  /** ASCII `downcase` of one character. */
  function LowerChar(c: char): char {
    if 'A' <= c <= 'Z' then (c as int - 'A' as int + 'a' as int) as char else c
  }

  /** ASCII `downcase`. */
  function Lower(s: string): (r: string)
    ensures |r| == |s| && forall i :: 0 <= i < |s| ==> r[i] == LowerChar(s[i])
  {
    seq(|s|, i requires 0 <= i < |s| => LowerChar(s[i]))
  }

  // ---------------------------------------------------------- to_s / to_i

  function DigitChar(d: nat): char
    requires d < 10
  {
    ('0' as int + d) as char
  }

  function DigitOf(c: char): nat
    requires IsDigit(c)
  {
    c as int - '0' as int
  }

  /** `Integer#to_s` of a non-negative integer: its decimal numeral. */
  function Decimal(n: nat): (s: string)
    ensures s != [] && AllDigits(s)
    ensures s[0] == '0' ==> n == 0 && s == "0"
    ensures ';' !in s && 'm' !in s
  {
    if n < 10 then [DigitChar(n)] else Decimal(n / 10) + [DigitChar(n % 10)]
  }

  /** `Integer#to_s`. */
  function IntToString(i: int): (s: string)
    ensures s != [] && NoSpace(s)
  {
    if i < 0 then "-" + Decimal(-i) else Decimal(i)
  }

  /** The value of a decimal numeral. */
  function DigitsValue(s: string): nat
    requires AllDigits(s)
  {
    if s == [] then 0 else DigitsValue(s[..|s| - 1]) * 10 + DigitOf(s[|s| - 1])
  }

  lemma {:induction false} DecimalValue(n: nat)
    ensures DigitsValue(Decimal(n)) == n
  {
    if n >= 10 {
      var s := Decimal(n);
      assert s[..|s| - 1] == Decimal(n / 10);
      DecimalValue(n / 10);
    }
  }

  /**
   * The digits `String#to_i` reads after the sign: a run of digits in which a
   * single `_` may stand between two digits; anything else ends the numeral.
   */
  function Numeral(s: string): (d: string)
    ensures AllDigits(d)
  {
    if s != [] && IsDigit(s[0]) then [s[0]] + MoreNumeral(s[1..]) else []
  }

  function MoreNumeral(s: string): (d: string)
    ensures AllDigits(d)
  {
    if s != [] && IsDigit(s[0]) then [s[0]] + MoreNumeral(s[1..])
    else if |s| >= 2 && s[0] == '_' && IsDigit(s[1]) then [s[1]] + MoreNumeral(s[2..])
    else []
  }

  /**
   * `String#to_i`: leading whitespace, then an optional sign and a numeral;
   * 0 when there is no numeral.
   */
  function ToI(s: string): int {
    var t := TrimStart(s);
    if t != [] && t[0] == '-' then 0 - DigitsValue(Numeral(t[1..]))
    else if t != [] && t[0] == '+' then DigitsValue(Numeral(t[1..]))
    else DigitsValue(Numeral(t))
  }

  lemma {:induction false} MoreNumeralDigits(s: string)
    requires AllDigits(s)
    ensures MoreNumeral(s) == s
  {
    if s != [] { MoreNumeralDigits(s[1..]); }
  }

  /** `to_i` reads back what `to_s` writes. */
  lemma IntToStringToI(i: int)
    ensures ToI(IntToString(i)) == i
  {
    var s := IntToString(i);
    assert TrimStart(s) == s;
    var n: nat := if i < 0 then -i else i;
    var d := Decimal(n);
    MoreNumeralDigits(d[1..]);
    assert Numeral(d) == d;
    DecimalValue(n);
    if i < 0 {
      assert IntToString(i)[1..] == d;
    }
  }

  // ----------------------------------------------------------------- join

  /** `parts.join(sep)`. */
  function Join(parts: seq<string>, sep: string): string {
    if parts == [] then "" else if |parts| == 1 then parts[0] else parts[0] + sep + Join(parts[1..], sep)
  }

  /** The position of the first `c` in `s`. */
  function IndexOf(s: string, c: char): (r: Option<nat>)
    ensures r.None? <==> c !in s
    ensures r.Some? ==> r.value < |s| && s[r.value] == c && c !in s[..r.value]
  {
    if s == [] then None
    else if s[0] == c then Some(0)
    else match IndexOf(s[1..], c)
      case None => None
      case Some(k) =>
        assert s[..k + 1] == [s[0]] + s[1..][..k];
        Some(k + 1)
  }

  lemma {:induction false} IndexOfAfter(p: string, c: char, rest: string)
    requires c !in p
    ensures IndexOf(p + [c] + rest, c) == Some(|p|)
  {
    if p != [] {
      assert (p + [c] + rest)[1..] == p[1..] + [c] + rest;
      IndexOfAfter(p[1..], c, rest);
    }
  }

  /** `s.split(c, -1)`: the pieces of `s` between the occurrences of `c`, empty ones included. */
  function Split(s: string, c: char): (parts: seq<string>)
    ensures parts != []
    decreases |s|
  {
    match IndexOf(s, c)
    case None => [s]
    case Some(k) => [s[..k]] + Split(s[k + 1..], c)
  }

  /** Splitting at the separator undoes joining with it. */
  lemma {:induction false} SplitJoin(parts: seq<string>, c: char)
    requires parts != [] && forall k :: 0 <= k < |parts| ==> c !in parts[k]
    ensures Split(Join(parts, [c]), c) == parts
    decreases |parts|
  {
    if |parts| > 1 {
      var tail := Join(parts[1..], [c]);
      assert Join(parts, [c]) == parts[0] + [c] + tail;
      IndexOfAfter(parts[0], c, tail);
      assert (parts[0] + [c] + tail)[..|parts[0]|] == parts[0];
      assert (parts[0] + [c] + tail)[|parts[0]| + 1..] == tail;
      SplitJoin(parts[1..], c);
    }
  }

  // ------------------------------------------------------------ compare

  /** `a <=> b` is at most 0: character by character, a proper prefix first. */
  predicate LexLe(a: string, b: string)
    decreases |a|
  {
    a == [] || (b != [] && (a[0] < b[0] || (a[0] == b[0] && LexLe(a[1..], b[1..]))))
  }

  lemma {:induction false} LexTotal(a: string, b: string)
    ensures LexLe(a, b) || LexLe(b, a)
    decreases |a|
  {
    if a != [] && b != [] && a[0] == b[0] {
      LexTotal(a[1..], b[1..]);
    }
  }

  lemma {:induction false} LexTrans(a: string, b: string, c: string)
    requires LexLe(a, b) && LexLe(b, c)
    ensures LexLe(a, c)
    decreases |a|
  {
    if a != [] && a[0] == b[0] && b[0] == c[0] {
      LexTrans(a[1..], b[1..], c[1..]);
    }
  }

  lemma {:induction false} LexAntisym(a: string, b: string)
    requires LexLe(a, b) && LexLe(b, a)
    ensures a == b
    decreases |a|
  {
    if a != [] {
      LexAntisym(a[1..], b[1..]);
      assert a == [a[0]] + a[1..] && b == [b[0]] + b[1..];
    }
  }
}
