/** Character classes and string helpers of Go's standard library that the
    tokenizer, the table extractor and the report assembler rely on:
    unicode.IsSpace, unicode.Quotation_Mark, unicode.ToUpper, strings.Fields,
    strings.Join, strings.Split, strconv formatting of integers and the
    two-digit strconv.ParseUint prefix test. Strings are sequences of runes. */
module Text {

  datatype Option<T> = None | Some(value: T)

  /** unicode.IsSpace: the Latin-1 spaces and the White_Space property. */
  predicate IsSpace(c: char)
  {
    || c == '\t' || c == '\n' || c == '\U{000B}' || c == '\U{000C}' || c == '\r' || c == ' '
    || c == '\U{0085}' || c == '\U{00A0}' || c == '\U{1680}'
    || ('\U{2000}' <= c <= '\U{200A}')
    || c == '\U{2028}' || c == '\U{2029}' || c == '\U{202F}' || c == '\U{205F}' || c == '\U{3000}'
  }

  /** unicode.Is(unicode.Quotation_Mark, c). */
  predicate IsQuotationMark(c: char)
  {
    || c == '"' || c == '\'' || c == '\U{00AB}' || c == '\U{00BB}'
    || ('\U{2018}' <= c <= '\U{201F}')
    || c == '\U{2039}' || c == '\U{203A}' || c == '\U{2E42}'
    || ('\U{300C}' <= c <= '\U{300F}')
    || ('\U{301D}' <= c <= '\U{301F}')
    || ('\U{FE41}' <= c <= '\U{FE44}')
    || c == '\U{FF02}' || c == '\U{FF07}' || c == '\U{FF62}' || c == '\U{FF63}'
  }

  /** unicode.ToUpper on U+0000-U+00FF, the Cyrillic block U+0400-U+04FF and
      the Cyrillic Extended-C letters U+1C80-U+1C88; every other rune maps to
      itself. */
  function ToUpper(c: char): char
  {
    var x := c as int;
    if 'a' <= c <= 'z' then (x - 32) as char
    else if c == '\U{00B5}' then '\U{039C}'
    else if '\U{00E0}' <= c <= '\U{00FE}' && c != '\U{00F7}' then (x - 32) as char
    else if c == '\U{00FF}' then '\U{0178}'
    else if '\U{0430}' <= c <= '\U{044F}' then (x - 32) as char
    else if '\U{0450}' <= c <= '\U{045F}' then (x - 80) as char
    else if ('\U{0460}' <= c <= '\U{0481}' || '\U{048A}' <= c <= '\U{04BF}' || '\U{04D0}' <= c <= '\U{04FF}') && x % 2 == 1 then (x - 1) as char
    else if '\U{04C1}' <= c <= '\U{04CE}' && x % 2 == 0 then (x - 1) as char
    else if c == '\U{04CF}' then '\U{04C0}'
    else if c == '\U{1C80}' then '\U{0412}'
    else if c == '\U{1C81}' then '\U{0414}'
    else if c == '\U{1C82}' then '\U{041E}'
    else if c == '\U{1C83}' then '\U{0421}'
    else if c == '\U{1C84}' || c == '\U{1C85}' then '\U{0422}'
    else if c == '\U{1C86}' then '\U{042A}'
    else if c == '\U{1C87}' then '\U{0462}'
    else if c == '\U{1C88}' then '\U{A64A}'
    else c
  }

  /** Rune-wise upper case of a whole string. */
  function Upper(s: string): (r: string)
    ensures |r| == |s|
    ensures forall k :: 0 <= k < |s| ==> r[k] == ToUpper(s[k])
  {
    if s == [] then [] else [ToUpper(s[0])] + Upper(s[1..])
  }

  /** strings.Join. */
  function Join(parts: seq<string>, sep: string): string
  {
    if parts == [] then ""
    else if |parts| == 1 then parts[0]
    else parts[0] + sep + Join(parts[1..], sep)
  }

  /** The index of the first occurrence of `c` in `s`, or |s| when there is none. */
  function IndexOf(s: string, c: char): (k: nat)
    ensures k <= |s|
    ensures forall i :: 0 <= i < k ==> s[i] != c
    ensures k < |s| ==> s[k] == c
  {
    if s == [] then 0 else if s[0] == c then 0 else 1 + IndexOf(s[1..], c)
  }

  /** strings.Split with a one-rune separator: always at least one part. */
  function Split(s: string, c: char): (r: seq<string>)
    ensures |r| >= 1
    decreases |s|
  {
    var k := IndexOf(s, c);
    if k == |s| then [s] else [s[..k]] + Split(s[k + 1..], c)
  }

  /** Splitting a join of separator-free parts gives the parts back. */
  lemma {:induction false} SplitJoin(parts: seq<string>, c: char)
    requires |parts| >= 1
    requires forall i :: 0 <= i < |parts| ==> c !in parts[i]
    ensures Split(Join(parts, [c]), c) == parts
  {
    var p := parts[0];
    assert IndexOf(p, c) == |p| by { IndexOfAbsent(p, c); }
    if |parts| == 1 {
    } else {
      var s := Join(parts, [c]);
      assert s == p + [c] + Join(parts[1..], [c]);
      IndexOfPrefix(p, c, Join(parts[1..], [c]));
      assert s[..|p|] == p;
      assert s[|p| + 1..] == Join(parts[1..], [c]);
      SplitJoin(parts[1..], c);
    }
  }

  lemma IndexOfAbsent(s: string, c: char)
    requires c !in s
    ensures IndexOf(s, c) == |s|
  {
  }

  lemma IndexOfPrefix(p: string, c: char, rest: string)
    requires c !in p
    ensures IndexOf(p + [c] + rest, c) == |p|
  {
    var s := p + [c] + rest;
    assert s[|p|] == c;
    assert forall i :: 0 <= i < |p| ==> s[i] == p[i];
  }

  /** The length of the leading run of non-space runes. */
  function WordLength(s: string): (n: nat)
    ensures n <= |s|
    ensures forall i :: 0 <= i < n ==> !IsSpace(s[i])
    ensures n < |s| ==> IsSpace(s[n])
  {
    if s == [] || IsSpace(s[0]) then 0 else 1 + WordLength(s[1..])
  }

  /** A word as strings.Fields produces it: non-empty, with no space rune. */
  predicate IsWord(w: string)
  {
    w != [] && forall i :: 0 <= i < |w| ==> !IsSpace(w[i])
  }

  /** strings.Fields: the maximal runs of non-space runes, in order. */
  function Fields(s: string): (r: seq<string>)
    ensures forall i :: 0 <= i < |r| ==> IsWord(r[i])
    decreases |s|
  {
    if s == [] then []
    else if IsSpace(s[0]) then Fields(s[1..])
    else
      var n := WordLength(s);
      [s[..n]] + Fields(s[n..])
  }

  /** strings.Join(strings.Fields(s), " "): runs of spaces collapsed, ends trimmed. */
  function NormalizeSpace(s: string): string
  {
    Join(Fields(s), " ")
  }

  /** Each rune of a single-space join of words is either ' ' or not a space. */
  lemma {:induction false} JoinWordsRunes(ws: seq<string>, k: nat)
    requires forall i :: 0 <= i < |ws| ==> IsWord(ws[i])
    requires k < |Join(ws, " ")|
    ensures var t := Join(ws, " "); t[k] == ' ' || !IsSpace(t[k])
  {
    if |ws| > 1 {
      var t := Join(ws, " ");
      assert t == ws[0] + " " + Join(ws[1..], " ");
      if k > |ws[0]| {
        JoinWordsRunes(ws[1..], k - |ws[0]| - 1);
      }
    }
  }

  /** A normalized paragraph holds no line break, no tab and no run of spaces
      other than a single ' ', and it neither starts nor ends with a space. */
  lemma NormalizeSpaceShape(s: string)
    ensures var t := NormalizeSpace(s);
      && (forall k :: 0 <= k < |t| ==> t[k] == ' ' || !IsSpace(t[k]))
      && (t != [] ==> !IsSpace(t[0]) && !IsSpace(t[|t| - 1]))
  {
    var ws := Fields(s);
    var t := Join(ws, " ");
    forall k | 0 <= k < |t| ensures t[k] == ' ' || !IsSpace(t[k]) {
      JoinWordsRunes(ws, k);
    }
    if t != [] {
      JoinWordsEnds(ws);
    }
  }

  lemma {:induction false} JoinWordsEnds(ws: seq<string>)
    requires forall i :: 0 <= i < |ws| ==> IsWord(ws[i])
    requires Join(ws, " ") != []
    ensures var t := Join(ws, " "); !IsSpace(t[0]) && !IsSpace(t[|t| - 1])
  {
    if |ws| > 1 {
      var t := Join(ws, " ");
      assert t == ws[0] + " " + Join(ws[1..], " ");
      JoinWordsEnds(ws[1..]);
      assert t[|t| - 1] == Join(ws[1..], " ")[|Join(ws[1..], " ")| - 1];
      assert t[0] == ws[0][0];
    }
  }

  /** strings.Fields undoes a single-space join of words. */
  lemma {:induction false} FieldsJoin(ws: seq<string>)
    requires forall i :: 0 <= i < |ws| ==> IsWord(ws[i])
    ensures Fields(Join(ws, " ")) == ws
  {
    if ws == [] {
    } else {
      var w := ws[0];
      WordLengthOfWord(w, if |ws| == 1 then "" else " " + Join(ws[1..], " "));
      if |ws| == 1 {
        assert Join(ws, " ") == w + "";
      } else {
        var rest := Join(ws[1..], " ");
        var t := Join(ws, " ");
        assert t == w + (" " + rest);
        assert t[..|w|] == w;
        assert t[|w|..] == " " + rest;
        assert Fields(" " + rest) == Fields(rest) by {
          assert (" " + rest)[1..] == rest;
        }
        FieldsJoin(ws[1..]);
      }
    }
  }

  lemma WordLengthOfWord(w: string, rest: string)
    requires IsWord(w)
    requires rest == [] || IsSpace(rest[0])
    ensures WordLength(w + rest) == |w|
    ensures (w + rest)[..|w|] == w && (w + rest)[|w|..] == rest
    ensures Fields(w + rest) == [w] + Fields(rest)
  {
    var s := w + rest;
    assert forall i :: 0 <= i < |w| ==> s[i] == w[i];
    assert rest != [] ==> s[|w|] == rest[0];
    assert s[..|w|] == w;
    assert s[|w|..] == rest;
  }

  /** Normalizing twice changes nothing. */
  lemma NormalizeSpaceIdempotent(s: string)
    ensures NormalizeSpace(NormalizeSpace(s)) == NormalizeSpace(s)
  {
    FieldsJoin(Fields(s));
  }

  // ---- decimal numbers ------------------------------------------------------

  predicate IsDigit(c: char)
  {
    '0' <= c <= '9'
  }

  function DigitChar(d: nat): (c: char)
    requires d < 10
    ensures IsDigit(c)
  {
    ('0' as int + d) as char
  }

  function DigitValue(c: char): (d: nat)
    requires IsDigit(c)
    ensures d < 10
  {
    c as int - '0' as int
  }

  /** The decimal digits of n, without leading zeros ("%d" for n >= 0). */
  function NatToString(n: nat): (s: string)
    ensures |s| >= 1
    ensures forall k :: 0 <= k < |s| ==> IsDigit(s[k])
    ensures s[|s| - 1] == DigitChar(n % 10)
    decreases n
  {
    if n < 10 then [DigitChar(n)] else NatToString(n / 10) + [DigitChar(n % 10)]
  }

  /** "%d": a minus sign before the digits of a negative number. */
  function IntToString(n: int): string
  {
    if n < 0 then "-" + NatToString(-n) else NatToString(n)
  }

  /** The value of a string of decimal digits. */
  function DecimalValue(s: string): nat
    requires forall k :: 0 <= k < |s| ==> IsDigit(s[k])
  {
    if s == [] then 0 else 10 * DecimalValue(s[..|s| - 1]) + DigitValue(s[|s| - 1])
  }

  /** Formatting a number and reading it back gives the number; the digits
      carry no leading zero. */
  lemma {:induction false} NatToStringRoundTrip(n: nat)
    ensures DecimalValue(NatToString(n)) == n
    ensures |NatToString(n)| > 1 ==> NatToString(n)[0] != '0'
    decreases n
  {
    var s := NatToString(n);
    if n >= 10 {
      NatToStringRoundTrip(n / 10);
      assert s[..|s| - 1] == NatToString(n / 10);
      assert s[0] == NatToString(n / 10)[0];
    }
  }

  /** The second-to-last digit of the decimal form of n >= 10 is (n / 10) % 10. */
  lemma TensDigit(n: nat)
    requires n >= 10
    ensures var s := NatToString(n); |s| >= 2 && s[|s| - 2] == DigitChar((n / 10) % 10)
  {
    var s := NatToString(n);
    assert s == NatToString(n / 10) + [DigitChar(n % 10)];
  }

  /** strconv.ParseUint(s[:2], 10, 64) guarded by a length test: the value of
      the first two runes when both are ASCII digits. */
  function TwoDigitPrefix(s: string): (r: Option<nat>)
    ensures r.Some? <==> |s| >= 2 && IsDigit(s[0]) && IsDigit(s[1])
    ensures r.Some? ==> r.value < 100 && r.value == DecimalValue(s[..2])
  {
    if |s| >= 2 && IsDigit(s[0]) && IsDigit(s[1]) then
      var p := s[..2];
      assert p[..1] == [s[0]] && p[..1][..0] == [];
      assert DecimalValue(p[..1]) == DigitValue(s[0]);
      assert p[|p| - 1] == s[1];
      assert DecimalValue(p) == 10 * DigitValue(s[0]) + DigitValue(s[1]);
      Some(10 * DigitValue(s[0]) + DigitValue(s[1]))
    else None
  }
}
