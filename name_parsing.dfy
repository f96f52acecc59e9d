/** The label tokenizer of internal/parser/name_parser.go: a cursor over the
    runes of a label that peels off qualifier tokens by case-insensitive
    longest match and keeps the rest, without its surrounding quotation
    marks, as the name. */
module NameParsing {
  import opened Text
  import opened Entity

  /** The qualifier candidates ParseName offers to MatchChar, in source order. */
  const Candidates: seq<string> := [
    "віпс", "впс", "ГОРВ", "ПОРВ", "ВОПР та ПБПС", "ВАЗ", "ВАК",
    "УОРД ПдРУ", "ВБТЗ", "2", "ПРИКЗ"]

  // ---- specification -------------------------------------------------------

  /** `option` equals a prefix of `rest` rune by rune under ToUpper. */
  predicate CaseFoldPrefix(option: string, rest: string)
  {
    option == [] || (rest != [] && ToUpper(option[0]) == ToUpper(rest[0]) && CaseFoldPrefix(option[1..], rest[1..]))
  }

  lemma {:induction false} CaseFoldPrefixAt(option: string, rest: string)
    ensures CaseFoldPrefix(option, rest) <==>
      |option| <= |rest| && forall k :: 0 <= k < |option| ==> ToUpper(option[k]) == ToUpper(rest[k])
  {
    if option != [] && rest != [] {
      CaseFoldPrefixAt(option[1..], rest[1..]);
      if ToUpper(option[0]) == ToUpper(rest[0]) && CaseFoldPrefix(option[1..], rest[1..]) {
        forall k | 0 <= k < |option| ensures ToUpper(option[k]) == ToUpper(rest[k]) {
          if k > 0 { assert option[1..][k - 1] == option[k] && rest[1..][k - 1] == rest[k]; }
        }
      }
      if |option| <= |rest| && forall k :: 0 <= k < |option| ==> ToUpper(option[k]) == ToUpper(rest[k]) {
        forall k | 0 <= k < |option| - 1 ensures ToUpper(option[1..][k]) == ToUpper(rest[1..][k]) {
          assert option[1..][k] == option[k + 1] && rest[1..][k] == rest[k + 1];
        }
      }
    }
  }

  /** A non-empty option matches every one of its runes at `pos`, ignoring case. */
  predicate MatchesAt(input: string, pos: nat, option: string)
  {
    0 < |option| && pos + |option| <= |input| && forall k :: 0 <= k < |option| ==> ToUpper(option[k]) == ToUpper(input[pos + k])
  }

  /** The match is the rune-by-rune case-folded prefix test on the rest of the input. */
  lemma MatchesAtFolded(input: string, pos: nat, option: string)
    ensures MatchesAt(input, pos, option) <==> 0 < |option| && pos <= |input| && CaseFoldPrefix(option, input[pos..])
  {
    if pos <= |input| {
      CaseFoldPrefixAt(option, input[pos..]);
      assert forall k :: 0 <= k < |input| - pos ==> input[pos..][k] == input[pos + k];
    }
  }

  /** The first `n` runes of `option` (as far as the input reaches) equal the
      input at `pos` under ToUpper: the mark MatchChar keeps for an option. */
  predicate Agrees(input: string, pos: nat, option: string, n: nat)
  {
    forall k :: 0 <= k < n && k < |option| && pos + k < |input| ==> ToUpper(option[k]) == ToUpper(input[pos + k])
  }

  /** One column of MatchChar's scan: how the mark and a full match evolve. */
  lemma AgreesStep(input: string, pos: nat, option: string, i: nat)
    requires pos + i < |input|
    ensures Agrees(input, pos, option, i + 1) <==>
      Agrees(input, pos, option, i) && (i < |option| ==> ToUpper(option[i]) == ToUpper(input[pos + i]))
    ensures i + 1 == |option| ==>
      (MatchesAt(input, pos, option) <==> Agrees(input, pos, option, i) && ToUpper(option[i]) == ToUpper(input[pos + i]))
    ensures |option| <= i ==> (MatchesAt(input, pos, option) <==> 0 < |option| && Agrees(input, pos, option, i))
  {
  }

  /** What MatchChar promises: "" when no option matches, otherwise one of the
      options that matches and is at least as long as every other match. */
  predicate IsLongestMatch(input: string, pos: nat, options: seq<string>, r: string)
  {
    if r == [] then forall o :: o in options ==> !MatchesAt(input, pos, o)
    else r in options && MatchesAt(input, pos, r) && forall o :: o in options && MatchesAt(input, pos, o) ==> |o| <= |r|
  }

  /** A reference longest match: an earlier option wins a tie. */
  function LongestMatch(input: string, pos: nat, options: seq<string>): string
  {
    if options == [] then ""
    else
      var rest := LongestMatch(input, pos, options[1..]);
      if MatchesAt(input, pos, options[0]) && |options[0]| >= |rest| then options[0] else rest
  }

  lemma {:induction false} LongestMatchIsLongest(input: string, pos: nat, options: seq<string>)
    ensures IsLongestMatch(input, pos, options, LongestMatch(input, pos, options))
  {
    if options != [] {
      LongestMatchIsLongest(input, pos, options[1..]);
      assert forall o :: o in options ==> o == options[0] || o in options[1..];
    }
  }

  /** No two options spell the same word up to case. */
  predicate CaseDistinct(options: seq<string>)
  {
    forall i, j :: 0 <= i < |options| && 0 <= j < |options| && i != j ==> Upper(options[i]) != Upper(options[j])
  }

  /** With case-distinct options the longest match is unique, so the order in
      which MatchChar visits its options cannot change its result. */
  lemma LongestMatchUnique(input: string, pos: nat, options: seq<string>, r1: string, r2: string)
    requires CaseDistinct(options)
    requires IsLongestMatch(input, pos, options, r1) && IsLongestMatch(input, pos, options, r2)
    ensures r1 == r2
  {
    if r1 != [] && r2 != [] {
      assert |r1| == |r2|;
      assert Upper(r1) == Upper(r2);
      var i :| 0 <= i < |options| && options[i] == r1;
      var j :| 0 <= j < |options| && options[j] == r2;
    }
  }

  /** The upper-case spelling of one candidate, three runes deep. */
  function Signature(s: string): (nat, char, char, char)
  {
    (|s|, if |s| > 0 then ToUpper(s[0]) else ' ', if |s| > 1 then ToUpper(s[1]) else ' ', if |s| > 2 then ToUpper(s[2]) else ' ')
  }

  lemma CandidatesCaseDistinct()
    ensures CaseDistinct(Candidates)
  {
    assert Signature(Candidates[0]) == (4, '\U{0412}', '\U{0406}', '\U{041F}');
    assert Signature(Candidates[1]) == (3, '\U{0412}', '\U{041F}', '\U{0421}');
    assert Signature(Candidates[2]) == (4, '\U{0413}', '\U{041E}', '\U{0420}');
    assert Signature(Candidates[3]) == (4, '\U{041F}', '\U{041E}', '\U{0420}');
    assert Signature(Candidates[4]) == (12, '\U{0412}', '\U{041E}', '\U{041F}');
    assert Signature(Candidates[5]) == (3, '\U{0412}', '\U{0410}', '\U{0417}');
    assert Signature(Candidates[6]) == (3, '\U{0412}', '\U{0410}', '\U{041A}');
    assert Signature(Candidates[7]) == (9, '\U{0423}', '\U{041E}', '\U{0420}');
    assert Signature(Candidates[8]) == (4, '\U{0412}', '\U{0411}', '\U{0422}');
    assert Signature(Candidates[9]) == (1, '2', ' ', ' ');
    assert Signature(Candidates[10]) == (5, '\U{041F}', '\U{0420}', '\U{0418}');
    forall i, j | 0 <= i < |Candidates| && 0 <= j < |Candidates| && i != j
      ensures Upper(Candidates[i]) != Upper(Candidates[j])
    {
      assert Signature(Candidates[i]) != Signature(Candidates[j]);
    }
  }

  /** The cursor after SkipSpace: past the run of space runes at `pos`. */
  function SkipSpaceFrom(input: string, pos: nat): (r: nat)
    ensures pos >= |input| ==> r == pos
    ensures pos <= |input| ==>
      && pos <= r <= |input|
      && (forall k :: pos <= k < r ==> IsSpace(input[k]))
      && (r < |input| ==> !IsSpace(input[r]))
    decreases |input| - pos
  {
    if pos >= |input| || !IsSpace(input[pos]) then pos else SkipSpaceFrom(input, pos + 1)
  }

  /** trimQuotes as written: None is the index-out-of-range panic of
      `out[len(out)-1]` when the rest of the input is one quotation mark. */
  function TrimQuotesAsWritten(input: string, pos: nat): Option<string>
  {
    if |input| <= pos then Some("")
    else
      var start := if IsQuotationMark(input[pos]) then pos + 1 else pos;
      var out := input[start..];
      if out == [] then None
      else if IsQuotationMark(out[|out| - 1]) then Some(out[..|out| - 1])
      else Some(out)
  }

  /** trimQuotes with the empty remainder handled: the rest of the input with
      at most one leading and at most one trailing quotation mark dropped. */
  function TrimQuotesFrom(input: string, pos: nat): (r: string)
    ensures |input| <= pos ==> r == ""
    ensures pos < |input| ==> |r| <= |input| - pos
  {
    if |input| <= pos then ""
    else
      var start := if IsQuotationMark(input[pos]) then pos + 1 else pos;
      var out := input[start..];
      if out != [] && IsQuotationMark(out[|out| - 1]) then out[..|out| - 1] else out
  }

  /** The qualifier tokens ParseName collects from `pos`, and the cursor after
      the whitespace that follows the last attempt. */
  function QualifierTokens(input: string, pos: nat, options: seq<string>): (r: (seq<string>, nat))
    requires pos <= |input|
    ensures pos <= r.1 <= |input|
    ensures r.1 < |input| ==> !IsSpace(input[r.1])
    ensures forall t :: t in r.0 ==> t in options && t != ""
    decreases |input| - pos
  {
    var m := LongestMatch(input, pos, options);
    assert m != "" ==> m in options && pos + |m| <= |input| by {
      LongestMatchIsLongest(input, pos, options);
    }
    var next := SkipSpaceFrom(input, pos + |m|);
    if m == "" then ([], next)
    else
      var rest := QualifierTokens(input, next, options);
      ([m] + rest.0, rest.1)
  }

  /** One step of QualifierTokens, without the facts about the match. */
  lemma QualifierTokensShape(input: string, pos: nat, options: seq<string>)
    requires pos <= |input|
    ensures var m := LongestMatch(input, pos, options);
      && pos + |m| <= |input|
      && var next := SkipSpaceFrom(input, pos + |m|);
      && pos + |m| <= next
      && (m == "" ==> QualifierTokens(input, pos, options) == ([], next))
      && (m != "" ==> m in options && QualifierTokens(input, pos, options) == ([m] + QualifierTokens(input, next, options).0, QualifierTokens(input, next, options).1))
  {
    QualifierTokensUnfold(input, pos, options);
  }

  /** The defining equation of QualifierTokens, with the facts that make its
      recursive call well defined. */
  lemma QualifierTokensUnfold(input: string, pos: nat, options: seq<string>)
    requires pos <= |input|
    ensures var m := LongestMatch(input, pos, options);
      && IsLongestMatch(input, pos, options, m)
      && pos + |m| <= |input|
      && var next := SkipSpaceFrom(input, pos + |m|);
      && pos + |m| <= next
      && (m == "" ==> QualifierTokens(input, pos, options) == ([], next))
      && (m != "" ==> m in options && QualifierTokens(input, pos, options) == ([m] + QualifierTokens(input, next, options).0, QualifierTokens(input, next, options).1))
  {
    LongestMatchIsLongest(input, pos, options);
  }

  /** One round of ParseName's loop: a match found at `pos` is the first
      token, and the tokens after it start where the following spaces end. */
  lemma QualifierTokensStep(input: string, pos: nat, options: seq<string>, matched: string, next: nat)
    requires pos <= |input| && CaseDistinct(options)
    requires IsLongestMatch(input, pos, options, matched)
    requires next == SkipSpaceFrom(input, pos + |matched|)
    ensures matched == "" ==> QualifierTokens(input, pos, options) == ([], next)
    ensures matched != "" ==> pos < next <= |input|
    ensures matched != "" ==> QualifierTokens(input, pos, options).0 == [matched] + QualifierTokens(input, next, options).0
    ensures matched != "" ==> QualifierTokens(input, pos, options).1 == QualifierTokens(input, next, options).1
  {
    QualifierTokensUnfold(input, pos, options);
    LongestMatchUnique(input, pos, options, matched, LongestMatch(input, pos, options));
  }

  /** The qualified name ParseName returns for a cursor at `pos`. */
  function ParseNameFrom(input: string, pos: nat): QualifiedName
    requires pos <= |input|
  {
    var (tokens, end) := QualifierTokens(input, pos, Candidates);
    QualifiedName(Join(tokens, " "), TrimQuotesFrom(input, end))
  }

  // ---- properties ----------------------------------------------------------

  /** A name between two quotation marks comes back without them. */
  lemma TrimQuotesWrapped(input: string, pos: nat, open: char, name: string, close: char)
    requires IsQuotationMark(open) && IsQuotationMark(close)
    requires pos <= |input| && input[pos..] == [open] + name + [close]
    ensures TrimQuotesFrom(input, pos) == name
  {
    assert input[pos] == input[pos..][0];
    assert input[pos + 1..] == name + [close];
  }

  /** A remainder that neither starts nor ends with a quotation mark is kept whole. */
  lemma TrimQuotesUnquoted(input: string, pos: nat)
    requires pos < |input| && !IsQuotationMark(input[pos]) && !IsQuotationMark(input[|input| - 1])
    ensures TrimQuotesFrom(input, pos) == input[pos..]
  {
  }

  /** trimQuotes keeps one contiguous stretch of the remainder: it drops the
      first rune exactly when that is a quotation mark, and besides that at
      most one trailing rune, which is then a quotation mark. */
  lemma TrimQuotesShape(input: string, pos: nat)
    requires pos <= |input|
    ensures exists a, b ::
              && pos <= a <= b <= |input| && TrimQuotesFrom(input, pos) == input[a..b]
              && (a == pos + 1 <==> pos < |input| && IsQuotationMark(input[pos]))
              && a <= pos + 1 && |input| - 1 <= b
              && (b < |input| ==> IsQuotationMark(input[b]))
  {
    if pos == |input| {
      assert TrimQuotesFrom(input, pos) == input[pos..pos];
    } else {
      var a := if IsQuotationMark(input[pos]) then pos + 1 else pos;
      var b := if a < |input| && IsQuotationMark(input[|input| - 1]) then |input| - 1 else |input|;
      assert TrimQuotesFrom(input, pos) == input[a..b];
    }
  }

  /** The source's trimQuotes faults exactly when the remainder is a single
      quotation mark. */
  lemma TrimQuotesAsWrittenFaults(input: string, pos: nat)
    ensures TrimQuotesAsWritten(input, pos).None? <==> pos + 1 == |input| && IsQuotationMark(input[pos])
  {
  }

  /** Wherever the source's trimQuotes returns, the corrected one agrees. */
  lemma TrimQuotesAgrees(input: string, pos: nat)
    requires TrimQuotesAsWritten(input, pos).Some?
    ensures TrimQuotesAsWritten(input, pos).value == TrimQuotesFrom(input, pos)
  {
  }

  /** The label «, alone, is the input that makes the source fault; the
      corrected trimQuotes gives the empty name. */
  lemma TrimQuotesFaultWitness()
    ensures TrimQuotesAsWritten("\U{00AB}", 0).None?
    ensures TrimQuotesFrom("\U{00AB}", 0) == ""
  {
    assert IsQuotationMark('\U{00AB}');
  }

  /** A rune that differs under ToUpper rules an option out. */
  lemma MismatchAt(input: string, pos: nat, option: string, j: nat)
    requires j < |option| && pos + j < |input| && ToUpper(option[j]) != ToUpper(input[pos + j])
    ensures !MatchesAt(input, pos, option)
  {
  }

  /** With case-distinct options, any result meeting MatchChar's promise is
      the reference longest match. */
  lemma LongestMatchIs(input: string, pos: nat, options: seq<string>, r: string)
    requires CaseDistinct(options) && IsLongestMatch(input, pos, options, r)
    ensures LongestMatch(input, pos, options) == r
  {
    LongestMatchIsLongest(input, pos, options);
    LongestMatchUnique(input, pos, options, r, LongestMatch(input, pos, options));
  }

  /** The four options of the source's matcher test, which differ up to case. */
  lemma TestOptionsCaseDistinct()
    ensures CaseDistinct(["впс", "віпс", "ГОРВ", "ГОРВ ВАЗ"])
  {
    var options := ["впс", "віпс", "ГОРВ", "ГОРВ ВАЗ"];
    forall i, j | 0 <= i < |options| && 0 <= j < |options| && i != j
      ensures Upper(options[i]) != Upper(options[j])
    {
      assert Signature(options[i]) != Signature(options[j]);
    }
  }

  lemma LongerOptionMatches()
    ensures IsLongestMatch("ГОРВ ВАЗ 123", 0, ["впс", "віпс", "ГОРВ", "ГОРВ ВАЗ"], "ГОРВ ВАЗ")
  {
    var options := ["впс", "віпс", "ГОРВ", "ГОРВ ВАЗ"];
    var s := "ГОРВ ВАЗ 123";
    MismatchAt(s, 0, options[0], 0);
    MismatchAt(s, 0, options[1], 0);
    LongerOptionFullMatch();
    assert forall o :: o in options ==> |o| <= 8;
  }

  lemma LongerOptionFullMatch()
    ensures MatchesAt("ГОРВ ВАЗ 123", 0, "ГОРВ ВАЗ")
  {
  }

  lemma ShorterOptionMatches()
    ensures IsLongestMatch("ГОРВ 123", 0, ["впс", "віпс", "ГОРВ", "ГОРВ ВАЗ"], "ГОРВ")
  {
    var options := ["впс", "віпс", "ГОРВ", "ГОРВ ВАЗ"];
    var s := "ГОРВ 123";
    MismatchAt(s, 0, options[0], 0);
    MismatchAt(s, 0, options[1], 0);
    MismatchAt(s, 0, options[3], 5);
    forall o | o in options ensures MatchesAt(s, 0, o) ==> |o| <= 4 {
      assert o == options[0] || o == options[1] || o == options[2] || o == options[3];
    }
  }

  /** Of two nested candidates, the longer one that matches wins. */
  lemma MatchCharPrefersLonger()
    ensures LongestMatch("ГОРВ ВАЗ 123", 0, ["впс", "віпс", "ГОРВ", "ГОРВ ВАЗ"]) == "ГОРВ ВАЗ"
    ensures LongestMatch("ГОРВ 123", 0, ["впс", "віпс", "ГОРВ", "ГОРВ ВАЗ"]) == "ГОРВ"
  {
    TestOptionsCaseDistinct();
    LongerOptionMatches();
    LongestMatchIs("ГОРВ ВАЗ 123", 0, ["впс", "віпс", "ГОРВ", "ГОРВ ВАЗ"], "ГОРВ ВАЗ");
    ShorterOptionMatches();
    LongestMatchIs("ГОРВ 123", 0, ["впс", "віпс", "ГОРВ", "ГОРВ ВАЗ"], "ГОРВ");
  }

  /** An option that matches is the longest match once every longer option
      is known not to. */
  lemma LongestByIndex(input: string, pos: nat, options: seq<string>, j: nat)
    requires j < |options| && MatchesAt(input, pos, options[j])
    requires forall k :: 0 <= k < |options| && |options[k]| > |options[j]| ==> !MatchesAt(input, pos, options[k])
    ensures IsLongestMatch(input, pos, options, options[j])
  {
    forall o | o in options && MatchesAt(input, pos, o) ensures |o| <= |options[j]| {
      var k :| 0 <= k < |options| && options[k] == o;
    }
  }

  lemma UpperCaseQualifierMatches()
    ensures IsLongestMatch("ВПС «Степанівка»", 0, Candidates, "впс")
  {
    var s := "ВПС «Степанівка»";
    LongerCandidatesMismatch();
    LongestByIndex(s, 0, Candidates, 1);
    assert Candidates[1] == "впс";
  }

  /** The Cyrillic Extended-C letter U+1C83 (wide es) upper-cases to С, so it
      folds onto the candidate "впс" as it does in Go. */
  lemma ExtendedCQualifierMatches()
    ensures IsLongestMatch("вп\U{1C83} «X»", 0, Candidates, "впс")
  {
    var s := "вп\U{1C83} «X»";
    forall k | 0 <= k < |Candidates| && |Candidates[k]| > 3 ensures !MatchesAt(s, 0, Candidates[k]) {
      if k == 0 || k == 4 || k == 8 {
        MismatchAt(s, 0, Candidates[k], 1);
      } else {
        HeadMismatch(s, 0, k);
      }
    }
    LongestByIndex(s, 0, Candidates, 1);
    assert Candidates[1] == "впс";
  }

  lemma LongerCandidatesMismatch()
    ensures forall k :: 0 <= k < |Candidates| && |Candidates[k]| > 3 ==> !MatchesAt("ВПС «Степанівка»", 0, Candidates[k])
  {
    var s := "ВПС «Степанівка»";
    forall k | 0 <= k < |Candidates| && |Candidates[k]| > 3 ensures !MatchesAt(s, 0, Candidates[k]) {
      if k == 0 || k == 4 || k == 8 {
        MismatchAt(s, 0, Candidates[k], 1);
      } else {
        MismatchAt(s, 0, Candidates[k], 0);
      }
    }
  }

  lemma NothingMatchesAtGuillemet()
    ensures IsLongestMatch("ВПС «Степанівка»", 4, Candidates, "")
  {
    var s := "ВПС «Степанівка»";
    forall k | 0 <= k < |Candidates| ensures !MatchesAt(s, 4, Candidates[k]) {
      MismatchAt(s, 4, Candidates[k], 0);
    }
  }

  /** A qualifier is reported in the candidate's spelling, and the quoted
      rest becomes the name. */
  lemma ParseNameKeepsCandidateSpelling()
    ensures ParseNameFrom("ВПС «Степанівка»", 0) == QualifiedName("впс", "Степанівка")
  {
    var s := "ВПС «Степанівка»";
    CandidatesCaseDistinct();
    UpperCaseQualifierMatches();
    LongestMatchIs(s, 0, Candidates, "впс");
    NothingMatchesAtGuillemet();
    LongestMatchIs(s, 4, Candidates, "");
    SpaceBeforeName();
    QualifierTokensShape(s, 0, Candidates);
    QualifierTokensShape(s, 4, Candidates);
    NameInGuillemets();
  }

  /** The last input of the test table: six qualifiers, two of them glued
      together ("2ПРИКЗ"), then a name in straight quotes. */
  const MixedInput: string := "ГОРВ ВАК 2ПРИКЗ 2 ПРИКЗ \"Тест\""

  /** Option j is the token at pos once it matches there and every longer
      option does not; the loop then goes on after the following spaces. */
  lemma CandidateToken(input: string, pos: nat, options: seq<string>, j: nat, next: nat)
    requires CaseDistinct(options)
    requires j < |options| && MatchesAt(input, pos, options[j])
    requires forall k :: 0 <= k < |options| && |options[k]| > |options[j]| ==> !MatchesAt(input, pos, options[k])
    requires next == SkipSpaceFrom(input, pos + |options[j]|)
    ensures QualifierTokens(input, pos, options).0 == [options[j]] + QualifierTokens(input, next, options).0
    ensures QualifierTokens(input, pos, options).1 == QualifierTokens(input, next, options).1
  {
    LongestByIndex(input, pos, options, j);
    QualifierTokensStep(input, pos, options, options[j], next);
  }

  /** Moving the token just read from the remaining list onto the list read so far. */
  lemma TokensAppend(t: seq<string>, matched: string, before: seq<string>, after: seq<string>)
    requires before == [matched] + after
    ensures t + before == (t + [matched]) + after
  {
  }

  /** One space, then a rune that is not one: the skip stops right after it. */
  lemma SkipOneSpace(input: string, p: nat)
    requires p + 1 < |input| && IsSpace(input[p]) && !IsSpace(input[p + 1])
    ensures SkipSpaceFrom(input, p) == p + 1
  {
  }

  lemma SkipNoSpace(input: string, p: nat)
    requires p < |input| && !IsSpace(input[p])
    ensures SkipSpaceFrom(input, p) == p
  {
  }

  /** Where the spaces after each qualifier of the mixed input end. */
  lemma MixedSpacesFront()
    ensures SkipSpaceFrom(MixedInput, 4) == 5 && SkipSpaceFrom(MixedInput, 8) == 9
  {
    SkipOneSpace(MixedInput, 4);
    SkipOneSpace(MixedInput, 8);
  }

  lemma MixedSpacesMiddle()
    ensures SkipSpaceFrom(MixedInput, 10) == 10 && SkipSpaceFrom(MixedInput, 15) == 16
  {
    SkipNoSpace(MixedInput, 10);
    SkipOneSpace(MixedInput, 15);
  }

  lemma MixedSpacesBack()
    ensures SkipSpaceFrom(MixedInput, 17) == 18 && SkipSpaceFrom(MixedInput, 23) == 24
  {
    SkipOneSpace(MixedInput, 17);
    SkipOneSpace(MixedInput, 23);
  }

  /** The first rune of each candidate, upper-cased. */
  const Heads: string := "\U{0412}\U{0412}\U{0413}\U{041F}\U{0412}\U{0412}\U{0412}\U{0423}\U{0412}2\U{041F}"

  lemma CandidateHeads()
    ensures |Heads| == |Candidates|
    ensures forall k :: 0 <= k < |Candidates| ==> |Candidates[k]| > 0 && ToUpper(Candidates[k][0]) == Heads[k]
  {
  }

  /** A candidate whose first rune differs from the input's under ToUpper does not match there. */
  lemma HeadMismatch(input: string, pos: nat, k: nat)
    requires k < |Candidates| && pos < |input| && Heads[k] != ToUpper(input[pos])
    ensures !MatchesAt(input, pos, Candidates[k])
  {
    CandidateHeads();
    MismatchAt(input, pos, Candidates[k], 0);
  }

  /** At each qualifier of the mixed input, the candidate read there matches
      and no longer candidate does. */
  lemma MixedMatchAt0()
    ensures MatchesAt(MixedInput, 0, Candidates[2])
    ensures forall k :: 0 <= k < |Candidates| && |Candidates[k]| > 4 ==> !MatchesAt(MixedInput, 0, Candidates[k])
  {
    forall k | 0 <= k < |Candidates| && |Candidates[k]| > 4 ensures !MatchesAt(MixedInput, 0, Candidates[k]) {
      HeadMismatch(MixedInput, 0, k);
    }
  }

  lemma MixedTokenAt0()
    ensures QualifierTokens(MixedInput, 0, Candidates).0 == [Candidates[2]] + ([Candidates[6]] + ([Candidates[9]] + ([Candidates[10]] + ([Candidates[9]] + ([Candidates[10]] + [])))))
    ensures QualifierTokens(MixedInput, 0, Candidates).1 == 24
  {
    MixedMatchAt0();
    MixedSpacesFront();
    CandidatesCaseDistinct();
    CandidateToken(MixedInput, 0, Candidates, 2, 5);
    MixedTokenAt5();
  }

  lemma MixedMatchAt5()
    ensures MatchesAt(MixedInput, 5, Candidates[6])
    ensures forall k :: 0 <= k < |Candidates| && |Candidates[k]| > 3 ==> !MatchesAt(MixedInput, 5, Candidates[k])
  {
    forall k | 0 <= k < |Candidates| && |Candidates[k]| > 3 ensures !MatchesAt(MixedInput, 5, Candidates[k]) {
      if k == 0 || k == 4 || k == 8 {
        MismatchAt(MixedInput, 5, Candidates[k], 1);
      } else {
        HeadMismatch(MixedInput, 5, k);
      }
    }
  }

  lemma MixedTokenAt5()
    ensures QualifierTokens(MixedInput, 5, Candidates).0 == [Candidates[6]] + ([Candidates[9]] + ([Candidates[10]] + ([Candidates[9]] + ([Candidates[10]] + []))))
    ensures QualifierTokens(MixedInput, 5, Candidates).1 == 24
  {
    MixedMatchAt5();
    MixedSpacesFront();
    CandidatesCaseDistinct();
    CandidateToken(MixedInput, 5, Candidates, 6, 9);
    MixedTokenAt9();
  }

  lemma MixedMatchAt9()
    ensures MatchesAt(MixedInput, 9, Candidates[9])
    ensures forall k :: 0 <= k < |Candidates| && |Candidates[k]| > 1 ==> !MatchesAt(MixedInput, 9, Candidates[k])
  {
    forall k | 0 <= k < |Candidates| && |Candidates[k]| > 1 ensures !MatchesAt(MixedInput, 9, Candidates[k]) {
      HeadMismatch(MixedInput, 9, k);
    }
  }

  /** "2" is taken off the front of "2ПРИКЗ", and no space separates it from
      the next token. */
  lemma MixedTokenAt9()
    ensures QualifierTokens(MixedInput, 9, Candidates).0 == [Candidates[9]] + ([Candidates[10]] + ([Candidates[9]] + ([Candidates[10]] + [])))
    ensures QualifierTokens(MixedInput, 9, Candidates).1 == 24
  {
    MixedMatchAt9();
    MixedSpacesMiddle();
    CandidatesCaseDistinct();
    CandidateToken(MixedInput, 9, Candidates, 9, 10);
    MixedTokenAt10();
  }

  lemma MixedMatchAt10()
    ensures MatchesAt(MixedInput, 10, Candidates[10])
    ensures forall k :: 0 <= k < |Candidates| && |Candidates[k]| > 5 ==> !MatchesAt(MixedInput, 10, Candidates[k])
  {
    forall k | 0 <= k < |Candidates| && |Candidates[k]| > 5 ensures !MatchesAt(MixedInput, 10, Candidates[k]) {
      HeadMismatch(MixedInput, 10, k);
    }
  }

  lemma MixedTokenAt10()
    ensures QualifierTokens(MixedInput, 10, Candidates).0 == [Candidates[10]] + ([Candidates[9]] + ([Candidates[10]] + []))
    ensures QualifierTokens(MixedInput, 10, Candidates).1 == 24
  {
    MixedMatchAt10();
    MixedSpacesMiddle();
    CandidatesCaseDistinct();
    CandidateToken(MixedInput, 10, Candidates, 10, 16);
    MixedTokenAt16();
  }

  lemma MixedMatchAt16()
    ensures MatchesAt(MixedInput, 16, Candidates[9])
    ensures forall k :: 0 <= k < |Candidates| && |Candidates[k]| > 1 ==> !MatchesAt(MixedInput, 16, Candidates[k])
  {
    forall k | 0 <= k < |Candidates| && |Candidates[k]| > 1 ensures !MatchesAt(MixedInput, 16, Candidates[k]) {
      HeadMismatch(MixedInput, 16, k);
    }
  }

  lemma MixedTokenAt16()
    ensures QualifierTokens(MixedInput, 16, Candidates).0 == [Candidates[9]] + ([Candidates[10]] + [])
    ensures QualifierTokens(MixedInput, 16, Candidates).1 == 24
  {
    MixedMatchAt16();
    MixedSpacesBack();
    CandidatesCaseDistinct();
    CandidateToken(MixedInput, 16, Candidates, 9, 18);
    MixedTokenAt18();
  }

  lemma MixedMatchAt18()
    ensures MatchesAt(MixedInput, 18, Candidates[10])
    ensures forall k :: 0 <= k < |Candidates| && |Candidates[k]| > 5 ==> !MatchesAt(MixedInput, 18, Candidates[k])
  {
    forall k | 0 <= k < |Candidates| && |Candidates[k]| > 5 ensures !MatchesAt(MixedInput, 18, Candidates[k]) {
      HeadMismatch(MixedInput, 18, k);
    }
  }

  lemma MixedTokenAt18()
    ensures QualifierTokens(MixedInput, 18, Candidates).0 == [Candidates[10]] + []
    ensures QualifierTokens(MixedInput, 18, Candidates).1 == 24
  {
    MixedMatchAt18();
    MixedSpacesBack();
    CandidatesCaseDistinct();
    CandidateToken(MixedInput, 18, Candidates, 10, 24);
    MixedTokensEnd();
  }

  /** At the opening quote nothing matches, so the loop ends there. */
  lemma MixedTokensEnd()
    ensures QualifierTokens(MixedInput, 24, Candidates).0 == [] && QualifierTokens(MixedInput, 24, Candidates).1 == 24
  {
    forall k | 0 <= k < |Candidates| ensures !MatchesAt(MixedInput, 24, Candidates[k]) {
      HeadMismatch(MixedInput, 24, k);
    }
    assert IsLongestMatch(MixedInput, 24, Candidates, "");
    assert SkipSpaceFrom(MixedInput, 24) == 24;
    CandidatesCaseDistinct();
    QualifierTokensStep(MixedInput, 24, Candidates, "", 24);
  }

  /** The tokens in the candidates' spelling. */
  lemma MixedTokenWords()
    ensures [Candidates[2]] + ([Candidates[6]] + ([Candidates[9]] + ([Candidates[10]] + ([Candidates[9]] + ([Candidates[10]] + []))))) == ["ГОРВ", "ВАК", "2", "ПРИКЗ", "2", "ПРИКЗ"]
  {
  }

  /** The straight quotes come off the name. */
  lemma MixedName()
    ensures TrimQuotesFrom(MixedInput, 24) == "Тест"
  {
    assert MixedInput[24..] == ['"'] + "Тест" + ['"'];
    TrimQuotesWrapped(MixedInput, 24, '"', "Тест", '"');
  }

  /** The whole parse of the mixed input: every qualifier is found, the glued
      "2ПРИКЗ" is split in two, and the quotes come off the name. */
  lemma ParseNameMixedQualifiers()
    ensures ParseNameFrom(MixedInput, 0) == QualifiedName(Join(["ГОРВ", "ВАК", "2", "ПРИКЗ", "2", "ПРИКЗ"], " "), "Тест")
  {
    MixedTokenAt0();
    MixedTokenWords();
    MixedName();
  }

  lemma SpaceBeforeName()
    ensures SkipSpaceFrom("ВПС «Степанівка»", 3) == 4
    ensures SkipSpaceFrom("ВПС «Степанівка»", 4) == 4
  {
    assert IsSpace("ВПС «Степанівка»"[3]);
  }

  lemma NameInGuillemets()
    ensures TrimQuotesFrom("ВПС «Степанівка»", 4) == "Степанівка"
  {
    var s := "ВПС «Степанівка»";
    assert s[4..] == ['«'] + "Степанівка" + ['»'];
    TrimQuotesWrapped(s, 4, '«', "Степанівка", '»');
  }

  /** MatchChar's state after columns 0 .. i-1: every option is still marked
      exactly when it agrees with the input so far, and `longest` is the
      longest option that matched within those columns. */
  ghost predicate Scanned(input: string, start: nat, options: seq<string>, suitable: map<string, bool>, longest: string, i: nat)
  {
    && suitable.Keys == (set o | o in options)
    && (forall key :: key in suitable ==> suitable[key] == Agrees(input, start, key, i))
    && (longest == "" || (longest in options && MatchesAt(input, start, longest) && |longest| <= i))
    && (forall key :: key in options && MatchesAt(input, start, key) && |key| <= i ==> |key| <= |longest|)
  }

  // ---- the cursor ----------------------------------------------------------

  class NameParser {
    const input: string
    var position: nat

    ghost predicate Valid()
      reads this
    {
      position <= |input|
    }

    constructor (input: string)
      ensures Valid() && this.input == input && position == 0
    {
      this.input := input;
      position := 0;
    }

    /** Longest case-insensitive match of an option at the cursor; the cursor
        moves past it. Options are visited in an arbitrary order, as Go visits
        the keys of the `suitable` map. */
    method MatchChar(options: seq<string>) returns (r: string)
      requires Valid()
      modifies this
      ensures Valid()
      ensures IsLongestMatch(input, old(position), options, r)
      ensures position == old(position) + |r|
      ensures old(position) == |input| ==> r == ""
    {
      if |input| <= position {
        forall o | o in options ensures !MatchesAt(input, position, o) {
        }
        return "";
      }
      var start := position;
      var suitable: map<string, bool> := map[];
      for n := 0 to |options|
        invariant suitable.Keys == set j | 0 <= j < n :: options[j]
        invariant forall key :: key in suitable ==> suitable[key]
      {
        suitable := suitable[options[n] := true];
      }
      assert suitable.Keys == set o | o in options by {
        forall o | o in options ensures o in suitable.Keys {
          var j :| 0 <= j < |options| && options[j] == o;
        }
      }
      forall key | key in suitable ensures suitable[key] == Agrees(input, start, key, 0) { }
      var longest: string := "";
      var i := 0;
      while i < |input[start..]|
        invariant 0 <= i <= |input| - start
        invariant Scanned(input, start, options, suitable, longest, i)
      {
        suitable, longest := ScanColumn(options, start, i, suitable, longest);
        i := i + 1;
      }
      forall o | o in options && MatchesAt(input, start, o) ensures 0 < |o| <= |longest| {
      }
      position := start + |longest|;
      r := longest;
    }

    /** One pass of MatchChar over the options at column i: a mismatching
        option loses its mark, and a marked option whose last rune is at i
        becomes the longest if it is longer. */
    method ScanColumn(options: seq<string>, start: nat, i: nat, suitable: map<string, bool>, longest: string)
      returns (suitable': map<string, bool>, longest': string)
      requires start + i < |input|
      requires Scanned(input, start, options, suitable, longest, i)
      ensures Scanned(input, start, options, suitable', longest', i + 1)
    {
      suitable' := suitable;
      longest' := longest;
      var keys := suitable.Keys;
      ghost var visited: set<string> := {};
      while keys != {}
        invariant suitable'.Keys == set o | o in options
        invariant keys + visited == suitable'.Keys && keys !! visited
        invariant forall key :: key in keys ==> suitable'[key] == Agrees(input, start, key, i)
        invariant forall key :: key in visited ==> suitable'[key] == Agrees(input, start, key, i + 1)
        invariant longest' == "" || (longest' in options && MatchesAt(input, start, longest') && |longest'| <= i + 1)
        invariant forall key :: key in options && MatchesAt(input, start, key) && |key| <= i ==> |key| <= |longest'|
        invariant forall key :: key in visited && MatchesAt(input, start, key) && |key| == i + 1 ==> |key| <= |longest'|
        decreases keys
      {
        var key :| key in keys;
        keys := keys - {key};
        visited := visited + {key};
        AgreesStep(input, start, key, i);
        if !suitable'[key] {
          // already eliminated
        } else if i >= |key| {
          // matched earlier in full, or empty: the mark stays
        } else if ToUpper(key[i]) != ToUpper(input[start + i]) {
          suitable' := suitable'[key := false];
        } else if i < |key| - 1 {
          // not the last rune of the option yet
        } else if |key| > |longest'| {
          longest' := key;
        }
      }
    }

    /** Moves the cursor past the run of whitespace at it. */
    method SkipSpace()
      requires Valid()
      modifies this
      ensures Valid()
      ensures position == SkipSpaceFrom(input, old(position))
      decreases |input| - position
    {
      if |input| <= position {
        return;
      }
      if IsSpace(input[position]) {
        position := position + 1;
        SkipSpace();
      }
    }

    /** The rest of the input, without one leading and one trailing quotation
        mark; the cursor moves to the end. An empty remainder after the
        leading mark gives "" (see TrimQuotesAsWritten for the source's panic). */
    method TrimQuotes() returns (out: string)
      requires Valid()
      modifies this
      ensures Valid() && position == |input|
      ensures out == TrimQuotesFrom(input, old(position))
    {
      if |input| <= position {
        return "";
      }
      ghost var start := position;
      var r := input[position];
      if IsQuotationMark(r) {
        position := position + 1;
      }
      assert position == if IsQuotationMark(input[start]) then start + 1 else start;
      out := input[position..|input|];
      assert out == input[position..];
      if |out| > 0 {
        r := out[|out| - 1];
        if IsQuotationMark(r) {
          out := out[..|out| - 1];
        }
      }
      position := |input|;
    }

    /** Qualifier tokens joined by single spaces, and the quote-trimmed rest. */
    method ParseName() returns (q: QualifiedName)
      requires Valid()
      modifies this
      ensures Valid() && position == |input|
      ensures q == ParseNameFrom(input, old(position))
    {
      CandidatesCaseDistinct();
      var t := ReadQualifiers(Candidates);
      var name := TrimQuotes();
      q := QualifiedName(Join(t, " "), name);
    }

    /** One round of ParseName's loop: a longest match and the spaces after it. */
    method NextQualifier(options: seq<string>) returns (matched: string)
      requires Valid() && CaseDistinct(options)
      modifies this
      ensures Valid()
      ensures matched == "" ==> QualifierTokens(input, old(position), options) == ([], position)
      ensures matched != "" ==> old(position) < position
      ensures matched != "" ==> QualifierTokens(input, old(position), options).0 == [matched] + QualifierTokens(input, position, options).0
      ensures matched != "" ==> QualifierTokens(input, old(position), options).1 == QualifierTokens(input, position, options).1
    {
      ghost var here := position;
      matched := MatchChar(options);
      SkipSpace();
      QualifierTokensStep(input, here, options, matched, position);
    }

    /** ParseName's loop: matches separated by whitespace, until no option
        matches at the cursor. */
    method ReadQualifiers(options: seq<string>) returns (t: seq<string>)
      requires Valid() && CaseDistinct(options)
      modifies this
      ensures Valid()
      ensures (t, position) == QualifierTokens(input, old(position), options)
    {
      ghost var start := position;
      t := [];
      while true
        invariant Valid()
        invariant QualifierTokens(input, start, options).0 == t + QualifierTokens(input, position, options).0
        invariant QualifierTokens(input, start, options).1 == QualifierTokens(input, position, options).1
        decreases |input| - position
      {
        ghost var here := position;
        ghost var before := QualifierTokens(input, here, options);
        var matched := NextQualifier(options);
        if |matched| < 1 {
          assert t + before.0 == t;
          break;
        }
        TokensAppend(t, matched, before.0, QualifierTokens(input, position, options).0);
        t := t + [matched];
      }
    }
  }
}
