/** Character classes and the handful of Python string operations the
    record normaliser depends on: case mapping, title case, whitespace
    splitting and joining, stripping, and decimal formatting and parsing.

    Case mapping is ASCII-only; every non-ASCII character counts as a letter
    (so it is a word character, it is "cased", and it is never whitespace). */
module Text {

  predicate IsDigit(c: char) { '0' <= c <= '9' }
  predicate IsUpper(c: char) { 'A' <= c <= 'Z' }
  predicate IsLower(c: char) { 'a' <= c <= 'z' }

  /** Letters in the sense of Python's "cased" characters. */
  predicate IsLetter(c: char) { IsUpper(c) || IsLower(c) || c as int >= 128 }

  /** Regular-expression `\w`. */
  predicate IsWordChar(c: char) { IsLetter(c) || IsDigit(c) || c == '_' }

  /** Regular-expression `\s`, and the separators of `str.split()`. */
  predicate IsSpace(c: char) {
    c == ' ' || c == '\t' || c == '\n' || c == '\r' || c as int == 11 || c as int == 12
  }

  predicate AllDigits(s: string) { forall i :: 0 <= i < |s| ==> IsDigit(s[i]) }
  predicate AllUpper(s: string) { forall i :: 0 <= i < |s| ==> IsUpper(s[i]) }
  predicate NoSpace(s: string) { forall i :: 0 <= i < |s| ==> !IsSpace(s[i]) }
  predicate NoChar(s: string, c: char) { forall i :: 0 <= i < |s| ==> s[i] != c }

  predicate StartsWith(s: string, prefix: string) {
    |prefix| <= |s| && s[..|prefix|] == prefix
  }

  /** `sub in s` */
  predicate Contains(s: string, sub: string) {
    exists i :: 0 <= i <= |s| && OccursAt(s, sub, i)
  }

  predicate OccursAt(s: string, sub: string, i: int) {
    0 <= i && i + |sub| <= |s| && s[i..i + |sub|] == sub
  }

  // ---------------------------------------------------------------- case

  function UpperChar(c: char): (r: char)
    ensures IsLetter(r) == IsLetter(c) && !IsLower(r)
  {
    if IsLower(c) then (c as int - 32) as char else c
  }

  function LowerChar(c: char): (r: char)
    ensures IsLetter(r) == IsLetter(c) && !IsUpper(r)
  {
    if IsUpper(c) then (c as int + 32) as char else c
  }

  /** `s.upper()` */
  function Upper(s: string): (r: string)
    ensures |r| == |s|
    ensures forall i :: 0 <= i < |s| ==> r[i] == UpperChar(s[i])
  {
    seq(|s|, i requires 0 <= i < |s| => UpperChar(s[i]))
  }

  /** `s.lower()` */
  function Lower(s: string): (r: string)
    ensures |r| == |s|
    ensures forall i :: 0 <= i < |s| ==> r[i] == LowerChar(s[i])
  {
    seq(|s|, i requires 0 <= i < |s| => LowerChar(s[i]))
  }

  /** The character `s.title()` puts at position i: upper case at the start
      of every run of letters, lower case inside it. */
  function TitleAt(s: string, i: nat): char
    requires i < |s|
  {
    if i == 0 || !IsLetter(s[i - 1]) then UpperChar(s[i]) else LowerChar(s[i])
  }

  /** `s.title()` */
  function Title(s: string): (r: string)
    ensures |r| == |s|
    ensures forall i :: 0 <= i < |s| ==> r[i] == TitleAt(s, i)
  {
    seq(|s|, i requires 0 <= i < |s| => TitleAt(s, i))
  }

  /** Title case only looks at letters, never at their case: upper-casing or
      lower-casing a string first does not change its title case. */
  lemma TitleIgnoresCase(s: string)
    ensures Title(Upper(s)) == Title(s)
    ensures Title(Lower(s)) == Title(s)
  {
    var u, l := Upper(s), Lower(s);
    forall i | 0 <= i < |s| ensures Title(u)[i] == Title(s)[i] && Title(l)[i] == Title(s)[i] {
      if i > 0 {
        assert IsLetter(u[i - 1]) == IsLetter(s[i - 1]);
        assert IsLetter(l[i - 1]) == IsLetter(s[i - 1]);
      }
    }
  }

  /** Title case is idempotent. */
  lemma TitleIdempotent(s: string)
    ensures Title(Title(s)) == Title(s)
  {
    var t := Title(s);
    forall i | 0 <= i < |s| ensures Title(t)[i] == t[i] {
      if i > 0 {
        assert IsLetter(t[i - 1]) == IsLetter(s[i - 1]);
      }
    }
  }

  /** Upper-casing a title-cased string gives the upper case of the
      string itself. */
  lemma UpperTitle(s: string)
    ensures Upper(Title(s)) == Upper(s)
  {
    forall i | 0 <= i < |s| ensures Upper(Title(s))[i] == Upper(s)[i] {
      assert UpperChar(LowerChar(s[i])) == UpperChar(s[i]);
    }
  }

  /** Title case changes letters only, into letters, so a single-spaced
      string stays single-spaced. */
  lemma TitleSingleSpaced(s: string)
    requires SingleSpaced(s)
    ensures SingleSpaced(Title(s))
  {
    var t := Title(s);
    forall i | 0 <= i < |s| ensures t[i] == s[i] || (IsLetter(t[i]) && IsLetter(s[i])) {
    }
  }

  // ------------------------------------------------------- split and join

  /** Length of the leading run of non-whitespace characters. */
  function WordLength(s: string): (n: nat)
    ensures n <= |s|
    ensures forall i :: 0 <= i < n ==> !IsSpace(s[i])
    ensures n < |s| ==> IsSpace(s[n])
  {
    if |s| == 0 || IsSpace(s[0]) then 0 else 1 + WordLength(s[1..])
  }

  /** `s.split()`: the maximal runs of non-whitespace characters. */
  function Split(s: string): (r: seq<string>)
    ensures forall k :: 0 <= k < |r| ==> |r[k]| > 0 && NoSpace(r[k])
    decreases |s|
  {
    if |s| == 0 then []
    else if IsSpace(s[0]) then Split(s[1..])
    else
      var n := WordLength(s);
      [s[..n]] + Split(s[n..])
  }

  /** `sep.join(parts)` */
  function Join(sep: string, parts: seq<string>): string
  {
    if |parts| == 0 then ""
    else if |parts| == 1 then parts[0]
    else parts[0] + sep + Join(sep, parts[1..])
  }

  /** Words separated by single spaces, no leading or trailing space: the
      shape `" ".join(s.split())` produces. */
  predicate SingleSpaced(s: string) {
    && NoChar(s, '\t') && NoChar(s, '\n') && NoChar(s, '\r')
    && (forall i :: 0 <= i < |s| ==> s[i] as int != 11 && s[i] as int != 12)
    && (|s| > 0 ==> s[0] != ' ' && s[|s| - 1] != ' ')
    && (forall i :: 0 <= i < |s| - 1 ==> !(s[i] == ' ' && s[i + 1] == ' '))
  }

  /** Joining the words of a single-spaced string with single spaces gives
      the string back. */
  lemma {:induction false} JoinSplit(s: string)
    requires SingleSpaced(s)
    ensures Join(" ", Split(s)) == s
    decreases |s|
  {
    if |s| == 0 {
    } else {
      var n := WordLength(s);
      assert n > 0;
      if n == |s| {
        assert s[..n] == s;
        assert Split(s[n..]) == [];
      } else {
        var rest := s[n + 1..];
        SingleSpacedAfterWord(s, n);
        SplitAtWord(s, n);
        SplitNonEmpty(rest);
        JoinSplit(rest);
        JoinCons(" ", s[..n], Split(rest));
      }
    }
  }

  /** A string whose first word ends before its end splits into that word
      and the words after the whitespace character that ends it. */
  lemma SplitAtWord(s: string, n: nat)
    requires n == WordLength(s) && 0 < n < |s|
    ensures Split(s) == [s[..n]] + Split(s[n + 1..])
  {
    assert s[n..][1..] == s[n + 1..];
  }

  /** A string starting with a word has a first word. */
  lemma SplitNonEmpty(s: string)
    requires |s| > 0 && !IsSpace(s[0])
    ensures |Split(s)| > 0
  {
  }

  /** What follows the first word and its space is single-spaced too, and
      starts with a word. */
  lemma SingleSpacedAfterWord(s: string, n: nat)
    requires SingleSpaced(s) && n == WordLength(s) && 0 < n < |s|
    ensures s == s[..n] + " " + s[n + 1..]
    ensures SingleSpaced(s[n + 1..]) && |s[n + 1..]| > 0 && !IsSpace(s[n + 1..][0])
  {
    var rest := s[n + 1..];
    assert s[n] == ' ';
    assert |rest| > 0 && rest[0] == s[n + 1];
  }

  lemma JoinCons(sep: string, w: string, parts: seq<string>)
    requires |parts| > 0
    ensures Join(sep, [w] + parts) == w + sep + Join(sep, parts)
  {
    assert ([w] + parts)[1..] == parts;
  }

  /** Splitting a single-space join of non-empty, space-free words gives the
      words back. */
  lemma {:induction false} SplitJoin(words: seq<string>)
    requires forall k :: 0 <= k < |words| ==> |words[k]| > 0 && NoSpace(words[k])
    ensures Split(Join(" ", words)) == words
  {
    if |words| == 0 {
    } else {
      var w := words[0];
      WordOf(w, if |words| == 1 then "" else " " + Join(" ", words[1..]));
      if |words| == 1 {
        assert Join(" ", words) == w + "";
      } else {
        var s := Join(" ", words);
        var tail := Join(" ", words[1..]);
        assert s == w + (" " + tail);
        assert s[|w|..] == " " + tail;
        assert Split(" " + tail) == Split(tail) by {
          assert (" " + tail)[1..] == tail;
        }
        SplitJoin(words[1..]);
      }
    }
  }

  lemma {:induction false} WordOf(w: string, rest: string)
    requires |w| > 0 && NoSpace(w)
    requires |rest| == 0 || IsSpace(rest[0])
    ensures WordLength(w + rest) == |w|
    ensures Split(w + rest) == [w] + Split(rest)
    decreases |w|
  {
    var s := w + rest;
    if |w| > 1 {
      assert s[1..] == w[1..] + rest;
      WordOf(w[1..], rest);
    } else {
      assert s[1..] == rest;
    }
    assert s[..|w|] == w;
    assert s[|w|..] == rest;
  }

  /** Every word upper-cased. */
  function UpperAll(words: seq<string>): (r: seq<string>)
    ensures |r| == |words| && forall k :: 0 <= k < |words| ==> r[k] == Upper(words[k])
  {
    seq(|words|, k requires 0 <= k < |words| => Upper(words[k]))
  }

  /** Upper-casing distributes over a join with single spaces. */
  lemma {:induction false} UpperJoin(words: seq<string>)
    ensures Join(" ", UpperAll(words)) == Upper(Join(" ", words))
    decreases |words|
  {
    if |words| > 1 {
      var rest := Join(" ", words[1..]);
      assert UpperAll(words)[1..] == UpperAll(words[1..]);
      UpperJoin(words[1..]);
      assert Upper(words[0] + " " + rest) == Upper(words[0]) + " " + Upper(rest);
    }
  }

  /** `" ".join(s.split())` */
  function CollapseSpaces(s: string): string {
    Join(" ", Split(s))
  }

  // -------------------------------------------------------------- strip

  function StripLeft(s: string): (r: string)
    ensures |r| <= |s| && r == s[|s| - |r|..]
    ensures |r| > 0 ==> !IsSpace(r[0])
    ensures forall i :: 0 <= i < |s| - |r| ==> IsSpace(s[i])
  {
    if |s| > 0 && IsSpace(s[0]) then StripLeft(s[1..]) else s
  }

  function StripRight(s: string): (r: string)
    ensures |r| <= |s| && r == s[..|r|]
    ensures |r| > 0 ==> !IsSpace(r[|r| - 1])
    ensures forall i :: |r| <= i < |s| ==> IsSpace(s[i])
  {
    if |s| > 0 && IsSpace(s[|s| - 1]) then StripRight(s[..|s| - 1]) else s
  }

  /** Stripping keeps a text of word characters and spaces so. */
  lemma StripKeepsWordsAndSpaces(s: string)
    requires forall i :: 0 <= i < |s| ==> IsWordChar(s[i]) || s[i] == ' '
    ensures var r := Strip(s);
      forall i :: 0 <= i < |r| ==> IsWordChar(r[i]) || r[i] == ' '
  {
    var r := Strip(s);
    forall i | 0 <= i < |r| ensures IsWordChar(r[i]) || r[i] == ' ' {
      assert r[i] in s;
    }
  }

  /** `s.strip()` */
  function Strip(s: string): (r: string)
    ensures |r| <= |s|
    ensures |r| > 0 ==> !IsSpace(r[0]) && !IsSpace(r[|r| - 1])
    ensures (|s| == 0 || (!IsSpace(s[0]) && !IsSpace(s[|s| - 1]))) ==> r == s
    ensures forall i :: 0 <= i < |r| ==> r[i] in s
  {
    var left := StripLeft(s);
    var r := StripRight(left);
    forall i | 0 <= i < |r| ensures r[i] in s {
      assert r[i] == left[i] == s[|s| - |left| + i];
    }
    r
  }

  // ------------------------------------------------------------ decimal

  function DigitChar(d: nat): (c: char)
    requires d < 10
    ensures IsDigit(c)
  {
    ('0' as int + d) as char
  }

  function DigitValue(c: char): nat
    requires IsDigit(c)
  {
    c as int - '0' as int
  }

  /** Decimal digits of n, most significant first, no leading zero. */
  function NatToString(n: nat): (s: string)
    ensures |s| > 0 && AllDigits(s)
    ensures |s| > 1 ==> s[0] != '0'
  {
    if n < 10 then [DigitChar(n)] else NatToString(n / 10) + [DigitChar(n % 10)]
  }

  /** `str(n)` for an integer. */
  function IntToString(n: int): string
  {
    if n < 0 then "-" + NatToString(-n) else NatToString(n)
  }

  /** `int(s)` for a string of decimal digits. */
  function DecimalValue(s: string): (n: nat)
    requires AllDigits(s)
  {
    if |s| == 0 then 0 else 10 * DecimalValue(s[..|s| - 1]) + DigitValue(s[|s| - 1])
  }

  /** Reading back the decimal digits of n gives n. */
  lemma {:induction false} DecimalRoundTrip(n: nat)
    ensures DecimalValue(NatToString(n)) == n
  {
    if n >= 10 {
      var s := NatToString(n);
      assert s[..|s| - 1] == NatToString(n / 10);
      DecimalRoundTrip(n / 10);
    }
  }

  /** The decimal digits of n number at most w when n is below 10^w. */
  lemma {:induction false} NatToStringLength(n: nat, w: nat)
    requires n < Pow10(w)
    ensures |NatToString(n)| <= w || (n == 0 && w == 0)
  {
    if n >= 10 {
      assert w > 1;
      NatToStringLength(n / 10, w - 1);
    }
  }

  function Pow10(w: nat): (p: nat)
    ensures p >= 1
  {
    if w == 0 then 1 else 10 * Pow10(w - 1)
  }

  /** Leading zeros do not change a decimal value. */
  lemma {:induction false} DecimalLeadingZeros(z: string, s: string)
    requires AllDigits(s) && forall i :: 0 <= i < |z| ==> z[i] == '0'
    ensures AllDigits(z + s) && DecimalValue(z + s) == DecimalValue(s)
    decreases |s|
  {
    var t := z + s;
    if |s| == 0 {
      ZerosValue(z);
      assert t == z;
    } else {
      assert t[..|t| - 1] == z + s[..|s| - 1];
      DecimalLeadingZeros(z, s[..|s| - 1]);
    }
  }

  lemma {:induction false} ZerosValue(z: string)
    requires forall i :: 0 <= i < |z| ==> z[i] == '0'
    ensures AllDigits(z) && DecimalValue(z) == 0
  {
    if |z| > 0 {
      ZerosValue(z[..|z| - 1]);
    }
  }

  function Zeros(k: nat): (z: string)
    ensures |z| == k && forall i :: 0 <= i < k ==> z[i] == '0'
  {
    if k == 0 then "" else "0" + Zeros(k - 1)
  }

  /** `"{:0<width>d}".format(n)`: the sign, then zeros, then the digits,
      padded to at least `width` characters. */
  function ZeroPad(n: int, width: nat): string
  {
    var sign := if n < 0 then "-" else "";
    var digits := NatToString(if n < 0 then -n else n);
    var pad := if |sign| + |digits| < width then width - |sign| - |digits| else 0;
    sign + Zeros(pad) + digits
  }

  /** A non-negative number below 10^width pads to exactly `width` digits
      that read back as the number. */
  lemma ZeroPadReadsBack(n: nat, width: nat)
    requires 0 < width && n < Pow10(width)
    ensures |ZeroPad(n, width)| == width
    ensures AllDigits(ZeroPad(n, width)) && DecimalValue(ZeroPad(n, width)) == n
  {
    NatToStringLength(n, width);
    var digits := NatToString(n);
    var z := Zeros(width - |digits|);
    assert ZeroPad(n, width) == z + digits;
    DecimalLeadingZeros(z, digits);
    DecimalRoundTrip(n);
  }

  // ------------------------------------------------ filtering characters

  /** `re.sub(r"[^\d]", "", s)` */
  function KeepDigits(s: string): (r: string)
    ensures AllDigits(r) && |r| <= |s|
    ensures AllDigits(s) ==> r == s
  {
    if |s| == 0 then ""
    else (if IsDigit(s[0]) then [s[0]] else "") + KeepDigits(s[1..])
  }

  /** `re.sub(r"[^\d].*", "", s)`: everything from the first non-digit on is
      dropped (each line after it starts with a newline, itself a non-digit,
      so it goes too). */
  function LeadingDigits(s: string): (r: string)
    ensures |r| <= |s| && AllDigits(r) && r == s[..|r|]
    ensures |r| < |s| ==> !IsDigit(s[|r|])
    ensures AllDigits(s) ==> r == s
  {
    if |s| == 0 || !IsDigit(s[0]) then "" else [s[0]] + LeadingDigits(s[1..])
  }

  /** Index of the first newline at or after `from`, or |s|. */
  function LineEnd(s: string, from: nat): (e: nat)
    requires from <= |s|
    ensures from <= e <= |s|
    ensures forall i :: from <= i < e ==> s[i] != '\n'
    decreases |s| - from
  {
    if from == |s| || s[from] == '\n' then from else LineEnd(s, from + 1)
  }

  /** The last ')' in s[lo..hi], if any. */
  function LastClose(s: string, lo: nat, hi: nat): (r: Option<nat>)
    requires lo <= hi <= |s|
    ensures r.Some? ==> lo <= r.value < hi && s[r.value] == ')'
    ensures r.Some? ==> forall i :: r.value < i < hi ==> s[i] != ')'
    ensures r.None? ==> forall i :: lo <= i < hi ==> s[i] != ')'
    decreases hi - lo
  {
    if hi == lo then None
    else if s[hi - 1] == ')' then Some(hi - 1)
    else LastClose(s, lo, hi - 1)
  }

  datatype Option<T> = None | Some(value: T)

  /** `re.sub(r"\(.*\)", "", s)`: scanning left to right, an opening
      parenthesis swallows everything up to the last closing parenthesis on
      its line; one without a closing partner on its line stays. */
  function RemoveParenthesized(s: string): (r: string)
    ensures |r| <= |s|
    ensures NoChar(s, '(') ==> r == s
    decreases |s|
  {
    if |s| == 0 then ""
    else if s[0] == '(' then
      match LastClose(s, 1, LineEnd(s, 1))
      case Some(q) => RemoveParenthesized(s[q + 1..])
      case None => "(" + RemoveParenthesized(s[1..])
    else [s[0]] + RemoveParenthesized(s[1..])
  }

  /** `re.sub(r"[^\w\s]+", " ", s)`: every maximal run of characters that
      are neither word characters nor whitespace becomes one space. */
  function PunctuationToSpace(s: string): (r: string)
    ensures forall i :: 0 <= i < |r| ==> IsWordChar(r[i]) || IsSpace(r[i])
    ensures (forall i :: 0 <= i < |s| ==> IsWordChar(s[i]) || IsSpace(s[i])) ==> r == s
    decreases |s|
  {
    if |s| == 0 then ""
    else if IsWordChar(s[0]) || IsSpace(s[0]) then [s[0]] + PunctuationToSpace(s[1..])
    else " " + PunctuationToSpace(s[PunctuationRun(s)..])
  }

  /** Length of the leading run of characters that are neither word
      characters nor whitespace. */
  function PunctuationRun(s: string): (n: nat)
    requires |s| > 0 && !IsWordChar(s[0]) && !IsSpace(s[0])
    ensures 1 <= n <= |s|
    ensures n < |s| ==> IsWordChar(s[n]) || IsSpace(s[n])
  {
    if |s| == 1 || IsWordChar(s[1]) || IsSpace(s[1]) then 1 else 1 + PunctuationRun(s[1..])
  }
  /** `re.sub(r"\W+", " ", s)`: every maximal run of non-word characters,
      whitespace included, becomes one space. */
  function NonWordToSpace(s: string): (r: string)
    ensures forall i :: 0 <= i < |r| ==> IsWordChar(r[i]) || r[i] == ' '
    ensures forall i :: 0 <= i < |r| - 1 ==> IsWordChar(r[i]) || IsWordChar(r[i + 1])
    ensures |r| > 0 && r[0] == ' ' ==> |s| > 0 && !IsWordChar(s[0])
    decreases |s|
  {
    if |s| == 0 then ""
    else if IsWordChar(s[0]) then [s[0]] + NonWordToSpace(s[1..])
    else
      var n := NonWordRun(s);
      var rest := NonWordToSpace(s[n..]);
      assert |rest| > 0 ==> IsWordChar(rest[0]);
      " " + rest
  }

  /** Length of the leading run of non-word characters. */
  function NonWordRun(s: string): (n: nat)
    requires |s| > 0 && !IsWordChar(s[0])
    ensures 1 <= n <= |s|
    ensures n < |s| ==> IsWordChar(s[n])
  {
    if |s| == 1 || IsWordChar(s[1]) then 1 else 1 + NonWordRun(s[1..])
  }

  // ---------------------------------------------------------- searching

  predicate AllSpace(s: string) { forall i :: 0 <= i < |s| ==> IsSpace(s[i]) }

  /** Number of leading whitespace characters. */
  function LeadingSpaces(s: string): (n: nat)
    ensures n <= |s| && AllSpace(s[..n])
    ensures n < |s| ==> !IsSpace(s[n])
  {
    if |s| == 0 || !IsSpace(s[0]) then 0 else 1 + LeadingSpaces(s[1..])
  }

  /** Position of the first `c` in s, if any. */
  function IndexOf(s: string, c: char): (r: Option<nat>)
    ensures r.Some? ==> r.value < |s| && s[r.value] == c && NoChar(s[..r.value], c)
    ensures r.None? ==> NoChar(s, c)
  {
    if |s| == 0 then None
    else if s[0] == c then Some(0)
    else match IndexOf(s[1..], c)
      case None => None
      case Some(k) => Some(k + 1)
  }

  /** `s.split(c)` for a single-character separator: the pieces between
      occurrences of c, empty ones included. */
  function SplitOn(s: string, c: char): (r: seq<string>)
    ensures |r| >= 1
    ensures forall k :: 0 <= k < |r| ==> NoChar(r[k], c)
    decreases |s|
  {
    match IndexOf(s, c)
    case None => [s]
    case Some(i) => [s[..i]] + SplitOn(s[i + 1..], c)
  }

  /** Splitting at c undoes joining with c, when no piece contains c. */
  lemma {:induction false} SplitOnJoin(parts: seq<string>, c: char)
    requires |parts| >= 1
    requires forall k :: 0 <= k < |parts| ==> NoChar(parts[k], c)
    ensures SplitOn(Join([c], parts), c) == parts
  {
    var s := Join([c], parts);
    if |parts| == 1 {
      assert s == parts[0];
    } else {
      var rest := Join([c], parts[1..]);
      assert s == parts[0] + [c] + rest;
      assert s[|parts[0]|] == c;
      assert s[..|parts[0]|] == parts[0];
      assert IndexOf(s, c) == Some(|parts[0]|);
      assert s[|parts[0]| + 1..] == rest;
      SplitOnJoin(parts[1..], c);
      assert [parts[0]] + parts[1..] == parts;
    }
  }
}
