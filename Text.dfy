/** The slice of Python's string behaviour the modelled programs rely on:
    `str.split()`, `sep.join(...)`, `str(int)`, `int(text)`, `lstrip`,
    `rstrip` and `replace`, each stated on `seq<char>`. */
module Text {
  import opened Results

  /** Python's `str.isspace` for one character: the separators that
      `str.split()` with no argument splits on. */
  predicate IsSpace(c: char) {
    || c == ' '
    || ('\t' <= c <= '\r')
    || ('\U{1C}' <= c <= '\U{1F}')
    || c == '\U{85}' || c == '\U{A0}' || c == '\U{1680}'
    || ('\U{2000}' <= c <= '\U{200A}')
    || c == '\U{2028}' || c == '\U{2029}' || c == '\U{202F}'
    || c == '\U{205F}' || c == '\U{3000}'
  }

  predicate NoSpace(s: string) {
    forall i | 0 <= i < |s| :: !IsSpace(s[i])
  }

  /** Length of the maximal run of non-whitespace at the front of `s`. */
  function WordLength(s: string): (n: nat)
    ensures n <= |s|
    ensures forall i | 0 <= i < n :: !IsSpace(s[i])
    ensures n == |s| || IsSpace(s[n])
  {
    if s == [] || IsSpace(s[0]) then 0 else 1 + WordLength(s[1..])
  }

  /** Python's `s.split()`: the maximal whitespace-free runs of `s`, in order. */
  function Split(s: string): (parts: seq<string>)
    ensures forall p | p in parts :: p != [] && NoSpace(p)
    decreases |s|
  {
    if s == [] then []
    else if IsSpace(s[0]) then Split(s[1..])
    else
      var n := WordLength(s);
      [s[..n]] + Split(s[n..])
  }

  /** Python's `sep.join(parts)`. */
  function Join(sep: string, parts: seq<string>): string
  {
    if parts == [] then ""
    else if |parts| == 1 then parts[0]
    else parts[0] + sep + Join(sep, parts[1..])
  }

  /** Two words joined by a space. */
  lemma JoinPair(a: string, b: string)
    ensures Join(" ", [a, b]) == a + " " + b
  {
    assert [a, b][1..] == [b];
  }

  /** Three words joined by spaces. */
  lemma JoinTriple(a: string, b: string, c: string)
    ensures Join(" ", [a, b, c]) == a + " " + (b + " " + c)
  {
    assert [a, b, c][1..] == [b, c];
    JoinPair(b, c);
  }

  lemma WordLengthOfWord(w: string, t: string)
    requires NoSpace(w)
    requires t == [] || IsSpace(t[0])
    ensures WordLength(w + t) == |w|
  {
    var s := w + t;
    assert forall i | 0 <= i < |w| :: s[i] == w[i];
    if t != [] {
      assert s[|w|] == t[0];
    }
  }

  /** Splitting words joined by single spaces gives the words back. */
  lemma {:induction false} SplitJoin(words: seq<string>)
    requires forall w | w in words :: w != [] && NoSpace(w)
    ensures Split(Join(" ", words)) == words
  {
    if words == [] {
    } else if |words| == 1 {
      var w := words[0];
      WordLengthOfWord(w, []);
      assert w + [] == w;
      assert w[|w|..] == [];
    } else {
      var w, rest := words[0], Join(" ", words[1..]);
      var s := w + " " + rest;
      assert s == w + (" " + rest);
      WordLengthOfWord(w, " " + rest);
      assert s[..|w|] == w;
      assert s[|w|..] == " " + rest;
      assert (" " + rest)[1..] == rest;
      assert forall v | v in words[1..] :: v in words;
      SplitJoin(words[1..]);
      assert words == [w] + words[1..];
    }
  }

  predicate IsDigit(c: char) {
    '0' <= c <= '9'
  }

  function DigitChar(d: nat): (c: char)
    requires d < 10
    ensures IsDigit(c) && c as int - '0' as int == d
  {
    ('0' as int + d) as char
  }

  /** Python's `str(n)` for a non-negative int: its decimal digits, no
      leading zero. */
  function NatToString(n: nat): (s: string)
    ensures s != [] && forall i | 0 <= i < |s| :: IsDigit(s[i])
    ensures |s| > 1 ==> s[0] != '0'
  {
    if n < 10 then [DigitChar(n)] else NatToString(n / 10) + [DigitChar(n % 10)]
  }

  /** Python's `str(i)` for an int. */
  function IntToString(i: int): string
  {
    if i < 0 then "-" + NatToString(-i) else NatToString(i)
  }

  /** The digits Python's `int()` accepts in base 10 (ASCII only): digits,
      with single underscores allowed between two digits. */
  predicate IsDecimal(s: string) {
    && s != []
    && IsDigit(s[0])
    && IsDigit(s[|s| - 1])
    && forall i | 0 <= i < |s| ::
         IsDigit(s[i]) || (s[i] == '_' && 0 < i < |s| - 1 && IsDigit(s[i + 1]))
  }

  /** Value of a digit string, underscores ignored. */
  function DecimalValue(s: string): nat
  {
    if s == [] then 0
    else if IsDigit(s[|s| - 1]) then
      10 * DecimalValue(s[..|s| - 1]) + (s[|s| - 1] as int - '0' as int)
    else DecimalValue(s[..|s| - 1])
  }

  /** Python's `int(text)` on text without surrounding whitespace: an
      optional sign followed by a decimal; anything else is a `ValueError`,
      modelled as `None`. */
  function ParseInt(s: string): Option<int>
  {
    if s != [] && (s[0] == '+' || s[0] == '-') then
      if IsDecimal(s[1..]) then
        var magnitude: int := DecimalValue(s[1..]);
        Some(if s[0] == '-' then -magnitude else magnitude)
      else None
    else if IsDecimal(s) then Some(DecimalValue(s))
    else None
  }

  /** The only characters a text `int()` accepts can hold: ASCII digits,
      underscores after the first character and a sign as the first; the
      last character is a digit (so an empty text or a lone sign fails). */
  predicate NumeralChars(s: string) {
    && s != [] && IsDigit(s[|s| - 1])
    && forall i | 0 <= i < |s| ::
         IsDigit(s[i]) || (s[i] == '_' && 0 < i) || (i == 0 && (s[i] == '+' || s[i] == '-'))
  }

  /** A text `int()` accepts is a numeral: whitespace, letters, other
      punctuation, an empty text and a lone sign are all refused. */
  lemma ParseIntAccepts(s: string)
    ensures ParseInt(s).Some? ==> NumeralChars(s) && NoSpace(s)
  {
    if ParseInt(s).Some? && s[0] in {'+', '-'} {
      var t := s[1..];
      forall i | 0 <= i < |s|
        ensures IsDigit(s[i]) || (s[i] == '_' && 0 < i) || (i == 0 && (s[i] == '+' || s[i] == '-'))
      {
        if i > 0 {
          assert s[i] == t[i - 1];
        }
      }
      assert s[|s| - 1] == t[|t| - 1];
    }
  }

  lemma {:induction false} DecimalValueOfNatToString(n: nat)
    ensures DecimalValue(NatToString(n)) == n
  {
    if n >= 10 {
      var s := NatToString(n);
      assert s[..|s| - 1] == NatToString(n / 10);
      DecimalValueOfNatToString(n / 10);
    }
  }

  /** A rendered int is one word that does not end in a comma. */
  lemma IntToStringWord(i: int)
    ensures var s := IntToString(i); s != [] && NoSpace(s) && s[|s| - 1] != ','
  {
    var s := IntToString(i);
    var digits := NatToString(if i < 0 then -i else i);
    assert s[|s| - 1] == digits[|digits| - 1];
    forall j | 0 <= j < |s|
      ensures !IsSpace(s[j])
    {
      assert s[j] == '-' || IsDigit(s[j]);
    }
  }

  /** `int(str(i)) == i`: rendering an int and parsing it back is lossless. */
  lemma ParseIntToString(i: int)
    ensures ParseInt(IntToString(i)) == Some(i)
  {
    var n: nat := if i < 0 then -i else i;
    DecimalValueOfNatToString(n);
    var s := IntToString(i);
    if i < 0 {
      assert s[1..] == NatToString(n);
    }
  }

  /** Python's `s.lstrip(c)`: `s` without its leading run of `c`. */
  function LStrip(s: string, c: char): (r: string)
    ensures |r| <= |s| && r == s[|s| - |r|..]
    ensures forall i | 0 <= i < |s| - |r| :: s[i] == c
    ensures r == [] || r[0] != c
  {
    if s != [] && s[0] == c then LStrip(s[1..], c) else s
  }

  /** Python's `s.rstrip(c)`: `s` without its trailing run of `c`. */
  function RStrip(s: string, c: char): (r: string)
    ensures |r| <= |s| && r == s[..|r|]
    ensures forall i | |r| <= i < |s| :: s[i] == c
    ensures r == [] || r[|r| - 1] != c
  {
    if s != [] && s[|s| - 1] == c then RStrip(s[..|s| - 1], c) else s
  }

  /** A printable ASCII character other than the space is a word by itself. */
  lemma PrintableChar(c: char)
    requires '!' <= c <= '~'
    ensures [c] != [] && NoSpace([c])
  {
    assert [c][0] == c;
  }

  /** A text of printable ASCII characters other than space is one word. */
  lemma Printable(s: string)
    requires forall i | 0 <= i < |s| :: '!' <= s[i] <= '~'
    ensures NoSpace(s)
  {
  }

  /** Three whitespace-free texts in a row are whitespace-free. */
  lemma NoSpaceConcat(p: string, s: string, q: string)
    requires NoSpace(p) && NoSpace(s) && NoSpace(q)
    ensures NoSpace(p + s + q)
  {
    var w := p + s + q;
    forall j | 0 <= j < |w|
      ensures !IsSpace(w[j])
    {
      if j < |p| {
        assert w[j] == p[j];
      } else if j < |p| + |s| {
        assert w[j] == s[j - |p|];
      } else {
        assert w[j] == q[j - |p| - |s|];
      }
    }
  }

  /** Stripping trailing `c`s from a text with one `c` appended gives the
      text back, when it does not end in `c` itself. */
  lemma RStripAppended(x: string, c: char)
    requires x != [] && x[|x| - 1] != c
    ensures RStrip(x + [c], c) == x
    ensures RStrip(x, c) == x
  {
    var r := RStrip(x + [c], c);
    assert (x + [c])[|x| - 1] == x[|x| - 1];
    assert r == (x + [c])[..|x|];
  }

  /** Whether `pat` occurs in `s` starting at index `i`. */
  predicate OccursAt(s: string, pat: string, i: nat) {
    i + |pat| <= |s| && s[i..i + |pat|] == pat
  }

  /** Python's `s.replace(pat, rep)`: every non-overlapping occurrence of
      `pat`, found left to right, replaced by `rep`. */
  function Replace(s: string, pat: string, rep: string): string
    requires pat != []
    decreases |s|
  {
    if |s| < |pat| then s
    else if s[..|pat|] == pat then rep + Replace(s[|pat|..], pat, rep)
    else [s[0]] + Replace(s[1..], pat, rep)
  }

  /** An occurrence of `pat` at the start is replaced, and the rest is
      searched after it. */
  lemma ReplaceLeading(pat: string, rest: string, rep: string)
    requires pat != []
    ensures Replace(pat + rest, pat, rep) == rep + Replace(rest, pat, rep)
  {
    assert (pat + rest)[..|pat|] == pat;
    assert (pat + rest)[|pat|..] == rest;
  }

  /** Text without an occurrence of `pat` is left as it is. */
  lemma {:induction false} ReplaceAbsent(s: string, pat: string, rep: string)
    requires pat != []
    requires forall i: nat | i < |s| :: !OccursAt(s, pat, i)
    ensures Replace(s, pat, rep) == s
  {
    if |s| >= |pat| {
      assert !OccursAt(s, pat, 0);
      forall i: nat | i < |s[1..]|
        ensures !OccursAt(s[1..], pat, i)
      {
        assert !OccursAt(s, pat, i + 1);
        if i + |pat| <= |s[1..]| {
          assert s[1..][i..i + |pat|] == s[i + 1..i + 1 + |pat|];
        }
      }
      ReplaceAbsent(s[1..], pat, rep);
    }
  }

  /** Python's `s[1:]`: everything after the first character; empty stays empty. */
  function DropFirst(s: string): (r: string)
    ensures |r| == if s == [] then 0 else |s| - 1
    ensures s != [] ==> s == [s[0]] + r
  {
    if s == [] then s else s[1..]
  }

  /** Python's `s[:-1]`: everything before the last character; empty stays empty. */
  function DropLast(s: string): (r: string)
    ensures |r| == if s == [] then 0 else |s| - 1
    ensures s != [] ==> s == r + [s[|s| - 1]]
  {
    if s == [] then s else s[..|s| - 1]
  }

  /** Concatenation regrouped. */
  lemma AppendAssoc<T>(a: seq<T>, b: seq<T>, c: seq<T>)
    ensures a + (b + c) == (a + b) + c
  {
  }
}
