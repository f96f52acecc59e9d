/** What the report built by internal/processor/processor.go says about the
    pages' records: per-page groups, totals over pages, the unknown
    identities, the comments and the summary lines. */
module ProcessingReport {
  import opened Text
  import opened Entity
  import opened Processing

  // ---- reference definitions -------------------------------------------------

  /** The identities the groups are reported under. */
  function Heads(dictionary: seq<seq<QualifiedName>>): set<ID>
    requires GroupsNonEmpty(dictionary)
  {
    set i | 0 <= i < |dictionary| :: GroupID(dictionary[i])
  }

  /** No two groups share a first name. */
  predicate HeadsDistinct(dictionary: seq<seq<QualifiedName>>)
    requires GroupsNonEmpty(dictionary)
  {
    forall i, j :: 0 <= i < j < |dictionary| ==> dictionary[i][0] != dictionary[j][0]
  }

  /** No name appears twice in a group. */
  predicate NamesDistinct(group: seq<QualifiedName>)
  {
    forall i, j :: 0 <= i < j < |group| ==> group[i] != group[j]
  }

  /** How many records carry one of the names. */
  function CountIn(rs: seq<Record>, names: set<QualifiedName>): nat
  {
    if rs == [] then 0
    else CountIn(rs[..|rs| - 1], names) + (if rs[|rs| - 1].id.qualifiedName in names then 1 else 0)
  }

  /** A group's total summed over the pages. */
  function PagesGroupTotal(dictionary: seq<seq<QualifiedName>>, files: seq<(string, seq<Record>)>, group: seq<QualifiedName>): int
  {
    if files == [] then 0
    else PagesGroupTotal(dictionary, files[..|files| - 1], group) + GroupTotal(PageTally(dictionary, files[|files| - 1].1).known, group)
  }

  /** How many records of all pages carry the identity. */
  function PagesIDCount(files: seq<(string, seq<Record>)>, id: ID): nat
  {
    if files == [] then 0 else PagesIDCount(files[..|files| - 1], id) + CountID(files[|files| - 1].1, id)
  }

  /** The non-empty comments of the records with the name, page by page. */
  function PagesNameComments(files: seq<(string, seq<Record>)>, qn: QualifiedName): seq<string>
  {
    if files == [] then [] else PagesNameComments(files[..|files| - 1], qn) + NameComments(files[|files| - 1].1, qn)
  }

  /** The non-empty comments of the records with the identity, page by page. */
  function PagesIDComments(files: seq<(string, seq<Record>)>, id: ID): seq<string>
  {
    if files == [] then [] else PagesIDComments(files[..|files| - 1], id) + NonEmpty(IDComments(files[|files| - 1].1, id))
  }

  /** The first k summary lines, written from the pages directly. */
  function ReportLines(dictionary: seq<seq<QualifiedName>>, files: seq<(string, seq<Record>)>, k: nat): string
    requires GroupsNonEmpty(dictionary) && k <= |dictionary|
  {
    if k == 0 then ""
    else
      var group := dictionary[k - 1];
      ReportLines(dictionary, files, k - 1)
        + SummaryLine(k, group[0].name, PagesGroupTotal(dictionary, files, group), |PagesNameComments(files, group[0])|)
  }

  // ---- one page ----------------------------------------------------------------

  lemma SeededKeys(dictionary: seq<seq<QualifiedName>>)
    ensures Seeded(dictionary).Keys == Names(dictionary)
  {
  }

  lemma HeadIsName(dictionary: seq<seq<QualifiedName>>, i: nat)
    requires GroupsNonEmpty(dictionary) && i < |dictionary|
    ensures dictionary[i][0] in Names(dictionary)
  {
    assert dictionary[i][0] in dictionary[i];
  }

  /** The unknown counters hold exactly the identities with an unknown name
      and at least one record. */
  lemma {:induction false} ProcessUnknownKeys(t: Tally, rs: seq<Record>, id: ID)
    ensures id in ProcessAll(t, rs).unknown <==> id in t.unknown || (id.qualifiedName !in t.known && CountID(rs, id) > 0)
  {
    if rs != [] {
      ProcessUnknownKeys(t, rs[..|rs| - 1], id);
      ProcessKeepsKnownKeys(t, rs[..|rs| - 1]);
    }
  }

  /** A page counts each dictionary name's records, hint ignored, and no
      other name. */
  lemma PageTallyKnown(dictionary: seq<seq<QualifiedName>>, records: seq<Record>, qn: QualifiedName)
    ensures PageTally(dictionary, records).known.Keys == Names(dictionary)
    ensures qn in Names(dictionary) ==> PageTally(dictionary, records).known[qn] == CountName(records, qn)
  {
    var t := Tally(Seeded(dictionary), map[], map[]);
    SeededKeys(dictionary);
    ProcessKeepsKnownKeys(t, records);
    if qn in Names(dictionary) {
      ProcessCountsKnown(t, records, qn);
    }
  }

  /** A page lists an identity as unknown exactly when its name is not in the
      dictionary and some record carries it; the count is its number of
      records. */
  lemma PageTallyUnknown(dictionary: seq<seq<QualifiedName>>, records: seq<Record>, id: ID)
    ensures Count(PageTally(dictionary, records).unknown, id) == if id.qualifiedName in Names(dictionary) then 0 else CountID(records, id)
    ensures id in PageTally(dictionary, records).unknown <==> id.qualifiedName !in Names(dictionary) && CountID(records, id) > 0
  {
    var t := Tally(Seeded(dictionary), map[], map[]);
    SeededKeys(dictionary);
    ProcessCountsUnknown(t, records, id);
    ProcessUnknownKeys(t, records, id);
  }

  /** Where a page files its comments. */
  lemma PageTallyComments(dictionary: seq<seq<QualifiedName>>, records: seq<Record>, id: ID)
    ensures id.qualifiedName in Names(dictionary) && id.hint == "" ==>
      Comments(PageTally(dictionary, records).commented, id) == NameComments(records, id.qualifiedName)
    ensures id.qualifiedName in Names(dictionary) && id.hint != "" ==>
      Comments(PageTally(dictionary, records).commented, id) == []
    ensures id.qualifiedName !in Names(dictionary) ==>
      Comments(PageTally(dictionary, records).commented, id) == IDComments(records, id)
  {
    SeededKeys(dictionary);
    ProcessFilesComments(Tally(Seeded(dictionary), map[], map[]), records, id);
  }

  /** Adding a name not yet counted adds its records. */
  lemma {:induction false} CountInAdd(rs: seq<Record>, names: set<QualifiedName>, qn: QualifiedName)
    requires qn !in names
    ensures CountIn(rs, names + {qn}) == CountIn(rs, names) + CountName(rs, qn)
  {
    if rs != [] {
      CountInAdd(rs[..|rs| - 1], names, qn);
    }
  }

  /** A group of distinct names totals the records that carry one of them. */
  lemma {:induction false} GroupTotalCounts(known: map<QualifiedName, int>, rs: seq<Record>, group: seq<QualifiedName>)
    requires NamesDistinct(group)
    requires forall n :: n in group ==> n in known && known[n] == CountName(rs, n)
    ensures GroupTotal(known, group) == CountIn(rs, set n | n in group)
  {
    if group == [] {
      assert (set n | n in group) == {};
      CountInNone(rs);
    } else {
      var init := group[..|group| - 1];
      var last := group[|group| - 1];
      assert forall k :: 0 <= k < |init| ==> init[k] == group[k];
      assert forall n :: n in init ==> n in group;
      GroupTotalCounts(known, rs, init);
      assert last !in init;
      assert (set n | n in group) == (set n | n in init) + {last};
      CountInAdd(rs, (set n | n in init), last);
    }
  }

  lemma {:induction false} CountInNone(rs: seq<Record>)
    ensures CountIn(rs, {}) == 0
  {
    if rs != [] {
      CountInNone(rs[..|rs| - 1]);
    }
  }

  /** Group i of a page lists the group's names in order, each with an empty
      hint and its number of records; a group of distinct names totals the
      records carrying one of them. */
  lemma PageGroups(dictionary: seq<seq<QualifiedName>>, records: seq<Record>, i: nat)
    requires i < |dictionary|
    ensures var g := KnownGroups(PageTally(dictionary, records).known, dictionary)[i];
      && |g.entries| == |dictionary[i]|
      && (forall j :: 0 <= j < |dictionary[i]| ==> g.entries[j] == Entry(ID(dictionary[i][j], ""), CountName(records, dictionary[i][j])))
      && (NamesDistinct(dictionary[i]) ==> g.total == CountIn(records, set n | n in dictionary[i]))
  {
    var known := PageTally(dictionary, records).known;
    var group := dictionary[i];
    forall n | n in group ensures n in known && known[n] == CountName(records, n) {
      assert n in Names(dictionary);
      PageTallyKnown(dictionary, records, n);
    }
    if NamesDistinct(group) {
      GroupTotalCounts(known, records, group);
    }
  }

  // ---- totals over the pages ----------------------------------------------------

  lemma HeadsPrefix(dictionary: seq<seq<QualifiedName>>, k: nat)
    requires GroupsNonEmpty(dictionary) && k < |dictionary|
    ensures GroupsNonEmpty(dictionary[..k + 1])
    ensures Heads(dictionary[..k + 1]) == Heads(dictionary[..k]) + {GroupID(dictionary[k])}
  {
    var d := dictionary[..k + 1];
    assert d[..k] == dictionary[..k];
    forall id | id in Heads(d) ensures id in Heads(dictionary[..k]) || id == GroupID(dictionary[k]) {
      var i :| 0 <= i < k + 1 && id == GroupID(d[i]);
      if i < k {
        assert dictionary[..k][i] == d[i];
      }
    }
    forall id | id in Heads(dictionary[..k]) ensures id in Heads(d) {
      var i :| 0 <= i < k && id == GroupID(dictionary[..k][i]);
      assert d[i] == dictionary[..k][i];
    }
    assert GroupID(d[k]) in Heads(d);
  }

  /** With distinct first names, no earlier group has group i's identity. */
  lemma HeadNotEarlier(dictionary: seq<seq<QualifiedName>>, i: nat)
    requires GroupsNonEmpty(dictionary) && HeadsDistinct(dictionary) && i < |dictionary|
    ensures GroupsNonEmpty(dictionary[..i])
    ensures GroupID(dictionary[i]) !in Heads(dictionary[..i])
  {
    forall k | 0 <= k < i ensures GroupID(dictionary[..i][k]) != GroupID(dictionary[i]) {
      assert dictionary[..i][k] == dictionary[k];
    }
  }

  /** A group's total only touches its own identity. */
  lemma {:induction false} AddGroupTotalsOther(overall: map<ID, int>, known: map<QualifiedName, int>, dictionary: seq<seq<QualifiedName>>, id: ID)
    requires GroupsNonEmpty(dictionary) && id !in Heads(dictionary)
    ensures id in AddGroupTotals(overall, known, dictionary) <==> id in overall
    ensures Count(AddGroupTotals(overall, known, dictionary), id) == Count(overall, id)
  {
    if dictionary != [] {
      var n := |dictionary| - 1;
      HeadsPrefix(dictionary, n);
      assert dictionary[..n + 1] == dictionary;
      AddGroupTotalsOther(overall, known, dictionary[..n], id);
    }
  }

  /** The keys of the running totals after one page's groups. */
  lemma {:induction false} AddGroupTotalsKeys(overall: map<ID, int>, known: map<QualifiedName, int>, dictionary: seq<seq<QualifiedName>>)
    requires GroupsNonEmpty(dictionary)
    ensures AddGroupTotals(overall, known, dictionary).Keys == overall.Keys + Heads(dictionary)
  {
    if dictionary != [] {
      var n := |dictionary| - 1;
      HeadsPrefix(dictionary, n);
      assert dictionary[..n + 1] == dictionary;
      AddGroupTotalsKeys(overall, known, dictionary[..n]);
    }
  }

  /** With distinct first names, each group's identity gains the group's total. */
  lemma {:induction false} AddGroupTotalsHead(overall: map<ID, int>, known: map<QualifiedName, int>, dictionary: seq<seq<QualifiedName>>, i: nat)
    requires GroupsNonEmpty(dictionary) && HeadsDistinct(dictionary) && i < |dictionary|
    ensures Count(AddGroupTotals(overall, known, dictionary), GroupID(dictionary[i])) == Count(overall, GroupID(dictionary[i])) + GroupTotal(known, dictionary[i])
  {
    var n := |dictionary| - 1;
    var init := dictionary[..n];
    var id := GroupID(dictionary[i]);
    assert forall k :: 0 <= k < n ==> init[k] == dictionary[k];
    if i == n {
      HeadNotEarlier(dictionary, n);
      AddGroupTotalsOther(overall, known, init, id);
    } else {
      AddGroupTotalsHead(overall, known, init, i);
      assert GroupID(dictionary[n]) != id;
    }
  }

  lemma AddCountsAt(overall: map<ID, int>, counts: map<ID, int>, id: ID)
    ensures id in AddCounts(overall, counts) <==> id in overall || id in counts
    ensures Count(AddCounts(overall, counts), id) == Count(overall, id) + Count(counts, id)
  {
  }

  /** With distinct first names, a group's reported total is the sum of its
      page totals. */
  lemma {:induction false} AccumulateGroupTotal(dictionary: seq<seq<QualifiedName>>, files: seq<(string, seq<Record>)>, i: nat)
    requires GroupsNonEmpty(dictionary) && HeadsDistinct(dictionary) && i < |dictionary|
    ensures Count(Accumulate(dictionary, files).0, GroupID(dictionary[i])) == PagesGroupTotal(dictionary, files, dictionary[i])
  {
    if files != [] {
      var init := files[..|files| - 1];
      AccumulateGroupTotal(dictionary, init, i);
      var o := Accumulate(dictionary, init).0;
      var t := PageTally(dictionary, files[|files| - 1].1);
      var id := GroupID(dictionary[i]);
      AddGroupTotalsHead(o, t.known, dictionary, i);
      AddCountsAt(AddGroupTotals(o, t.known, dictionary), t.unknown, id);
      HeadIsName(dictionary, i);
      PageTallyUnknown(dictionary, files[|files| - 1].1, id);
    }
  }

  /** A group identity carries a dictionary name. */
  lemma OutsideNameNotHead(dictionary: seq<seq<QualifiedName>>, id: ID)
    requires GroupsNonEmpty(dictionary) && id.qualifiedName !in Names(dictionary)
    ensures id !in Heads(dictionary)
  {
    forall i | 0 <= i < |dictionary| ensures GroupID(dictionary[i]) != id {
      HeadIsName(dictionary, i);
    }
  }

  /** An identity with an unknown name is totalled over all pages; it is a
      key exactly when some record of some page carries it. */
  lemma {:induction false} AccumulateUnknown(dictionary: seq<seq<QualifiedName>>, files: seq<(string, seq<Record>)>, id: ID)
    requires GroupsNonEmpty(dictionary) && id.qualifiedName !in Names(dictionary)
    ensures Count(Accumulate(dictionary, files).0, id) == PagesIDCount(files, id)
    ensures id in Accumulate(dictionary, files).0 <==> PagesIDCount(files, id) > 0
  {
    if files != [] {
      var init := files[..|files| - 1];
      AccumulateUnknown(dictionary, init, id);
      var o := Accumulate(dictionary, init).0;
      var t := PageTally(dictionary, files[|files| - 1].1);
      OutsideNameNotHead(dictionary, id);
      AddGroupTotalsOther(o, t.known, dictionary, id);
      AddCountsAt(AddGroupTotals(o, t.known, dictionary), t.unknown, id);
      PageTallyUnknown(dictionary, files[|files| - 1].1, id);
    }
  }

  /** The running totals hold the group identities and unknown identities
      only. */
  lemma {:induction false} AccumulateKeys(dictionary: seq<seq<QualifiedName>>, files: seq<(string, seq<Record>)>, id: ID)
    requires GroupsNonEmpty(dictionary) && id in Accumulate(dictionary, files).0
    ensures id in Heads(dictionary) || id.qualifiedName !in Names(dictionary)
  {
    var init := files[..|files| - 1];
    var o := Accumulate(dictionary, init).0;
    var t := PageTally(dictionary, files[|files| - 1].1);
    AddCountsAt(AddGroupTotals(o, t.known, dictionary), t.unknown, id);
    AddGroupTotalsKeys(o, t.known, dictionary);
    PageTallyUnknown(dictionary, files[|files| - 1].1, id);
    if id in o {
      AccumulateKeys(dictionary, init, id);
    }
  }

  // ---- comments over the pages ---------------------------------------------------

  lemma {:induction false} NonEmptyAppend(a: seq<string>, b: seq<string>)
    ensures NonEmpty(a + b) == NonEmpty(a) + NonEmpty(b)
    decreases |b|
  {
    if b == [] {
      assert a + b == a;
    } else {
      var init := b[..|b| - 1];
      assert (a + b)[..|a + b| - 1] == a + init;
      assert (a + b)[|a + b| - 1] == b[|b| - 1];
      NonEmptyAppend(a, init);
    }
  }

  /** NonEmpty keeps exactly the non-empty strings. */
  lemma {:induction false} NonEmptyKeeps(cs: seq<string>)
    ensures forall c :: c in NonEmpty(cs) <==> c in cs && c != ""
  {
    if cs != [] {
      NonEmptyKeeps(cs[..|cs| - 1]);
      assert forall c :: c in cs <==> c in cs[..|cs| - 1] || c == cs[|cs| - 1];
    }
  }

  /** A name's comments are non-empty already. */
  lemma {:induction false} NameCommentsNonEmpty(rs: seq<Record>, qn: QualifiedName)
    ensures NonEmpty(NameComments(rs, qn)) == NameComments(rs, qn)
  {
    if rs != [] {
      var init := rs[..|rs| - 1];
      var r := rs[|rs| - 1];
      NameCommentsNonEmpty(init, qn);
      var tail := if r.id.qualifiedName == qn && |r.comment| > 0 then [r.comment] else [];
      NonEmptyAppend(NameComments(init, qn), tail);
      assert NonEmpty(tail) == tail by {
        if tail != [] {
          assert tail[..0] == [];
        }
      }
    }
  }

  lemma MergeCommentsAt(overall: map<ID, seq<string>>, commented: map<ID, seq<string>>, id: ID)
    ensures Comments(MergeComments(overall, commented), id) == Comments(overall, id) + NonEmpty(Comments(commented, id))
  {
    if id !in overall && !(id in commented && NonEmpty(commented[id]) != []) {
      assert NonEmpty(Comments(commented, id)) == [];
    }
  }

  /** Across pages, a dictionary name with an empty hint gathers its records'
      non-empty comments; an unknown identity gathers its own non-empty
      comments; a dictionary name with a hint gathers none. */
  lemma {:induction false} AccumulateComments(dictionary: seq<seq<QualifiedName>>, files: seq<(string, seq<Record>)>, id: ID)
    requires GroupsNonEmpty(dictionary)
    ensures id.qualifiedName in Names(dictionary) && id.hint == "" ==>
      Comments(Accumulate(dictionary, files).1, id) == PagesNameComments(files, id.qualifiedName)
    ensures id.qualifiedName in Names(dictionary) && id.hint != "" ==>
      Comments(Accumulate(dictionary, files).1, id) == []
    ensures id.qualifiedName !in Names(dictionary) ==>
      Comments(Accumulate(dictionary, files).1, id) == PagesIDComments(files, id)
  {
    if files != [] {
      var init := files[..|files| - 1];
      var records := files[|files| - 1].1;
      AccumulateComments(dictionary, init, id);
      var c := Accumulate(dictionary, init).1;
      var t := PageTally(dictionary, records);
      MergeCommentsAt(c, t.commented, id);
      PageTallyComments(dictionary, records, id);
      NameCommentsNonEmpty(records, id.qualifiedName);
    }
  }

  /** Every footnote holds at least one comment, and no comment is empty. */
  lemma {:induction false} AccumulateCommentsNonEmpty(dictionary: seq<seq<QualifiedName>>, files: seq<(string, seq<Record>)>, id: ID)
    requires GroupsNonEmpty(dictionary) && id in Accumulate(dictionary, files).1
    ensures Accumulate(dictionary, files).1[id] != []
    ensures forall c :: c in Accumulate(dictionary, files).1[id] ==> c != ""
  {
    var init := files[..|files| - 1];
    var records := files[|files| - 1].1;
    var c := Accumulate(dictionary, init).1;
    var t := PageTally(dictionary, records);
    NonEmptyKeeps(Comments(t.commented, id));
    MergeCommentsAt(c, t.commented, id);
    if id in c {
      AccumulateCommentsNonEmpty(dictionary, init, id);
    } else {
      assert id in CommentedIDs(t.commented);
    }
  }

  // ---- the summary -------------------------------------------------------------

  /** Summarizing takes every group identity out of the totals. */
  lemma {:induction false} SummarizeRest(dictionary: seq<seq<QualifiedName>>, overall: map<ID, int>, comments: map<ID, seq<string>>)
    requires GroupsNonEmpty(dictionary)
    ensures Summarize(dictionary, overall, comments).2 == overall - Heads(dictionary)
  {
    if dictionary != [] {
      var n := |dictionary| - 1;
      HeadsPrefix(dictionary, n);
      assert dictionary[..n + 1] == dictionary;
      SummarizeRest(dictionary[..n], overall, comments);
    }
  }

  lemma {:induction false} SummarizeLength(dictionary: seq<seq<QualifiedName>>, overall: map<ID, int>, comments: map<ID, seq<string>>)
    requires GroupsNonEmpty(dictionary)
    ensures |Summarize(dictionary, overall, comments).1| == |dictionary|
  {
    if dictionary != [] {
      SummarizeLength(dictionary[..|dictionary| - 1], overall, comments);
    }
  }

  /** One total per group, in dictionary order, under the group's identity;
      a group whose first name an earlier group already used reports 0,
      since the assembler deletes each identity once it is reported. */
  lemma {:induction false} SummarizeTotals(dictionary: seq<seq<QualifiedName>>, overall: map<ID, int>, comments: map<ID, seq<string>>)
    requires GroupsNonEmpty(dictionary)
    ensures |Summarize(dictionary, overall, comments).1| == |dictionary|
    ensures forall i :: 0 <= i < |dictionary| ==>
      Summarize(dictionary, overall, comments).1[i] == Entry(GroupID(dictionary[i]), Count(overall - Heads(dictionary[..i]), GroupID(dictionary[i])))
  {
    SummarizeLength(dictionary, overall, comments);
    if dictionary != [] {
      var n := |dictionary| - 1;
      var init := dictionary[..n];
      SummarizeTotals(init, overall, comments);
      SummarizeRest(init, overall, comments);
      var s := Summarize(dictionary, overall, comments).1;
      var p := Summarize(init, overall, comments);
      var id := GroupID(dictionary[n]);
      assert s == p.1 + [Entry(id, Count(p.2, id))];
      forall i | 0 <= i < |dictionary|
        ensures s[i] == Entry(GroupID(dictionary[i]), Count(overall - Heads(dictionary[..i]), GroupID(dictionary[i])))
      {
        if i < n {
          assert init[..i] == dictionary[..i] && init[i] == dictionary[i];
          assert s[i] == p.1[i];
        } else {
          assert dictionary[..i] == init;
        }
      }
    }
  }

  /** The as-written consequence of a repeated first name. */
  lemma RepeatedHeadReportsZero(dictionary: seq<seq<QualifiedName>>, overall: map<ID, int>, comments: map<ID, seq<string>>, i: nat, j: nat)
    requires GroupsNonEmpty(dictionary) && j < i < |dictionary| && dictionary[i][0] == dictionary[j][0]
    ensures |Summarize(dictionary, overall, comments).1| == |dictionary|
    ensures Summarize(dictionary, overall, comments).1[i].count == 0
  {
    SummarizeTotals(dictionary, overall, comments);
    assert dictionary[..i][j] == dictionary[j];
    assert GroupID(dictionary[i]) in Heads(dictionary[..i]);
  }

  /** With distinct first names, reported total i is group i's total summed
      over the pages. */
  lemma ReportTotals(dictionary: seq<seq<QualifiedName>>, files: seq<(string, seq<Record>)>, i: nat)
    requires GroupsNonEmpty(dictionary) && HeadsDistinct(dictionary) && i < |dictionary|
    ensures var (overall, comments) := Accumulate(dictionary, files);
      var totals := Summarize(dictionary, overall, comments).1;
      |totals| == |dictionary| && totals[i] == Entry(GroupID(dictionary[i]), PagesGroupTotal(dictionary, files, dictionary[i]))
  {
    var (overall, comments) := Accumulate(dictionary, files);
    SummarizeTotals(dictionary, overall, comments);
    AccumulateGroupTotal(dictionary, files, i);
    HeadNotEarlier(dictionary, i);
  }

  /** What is left for the unknown totals: exactly the identities with a
      name outside the dictionary that some page's records carry, each with
      its number of records over all pages. */
  lemma ReportUnknown(dictionary: seq<seq<QualifiedName>>, files: seq<(string, seq<Record>)>, id: ID)
    requires GroupsNonEmpty(dictionary)
    ensures var (overall, comments) := Accumulate(dictionary, files);
      var rest := Summarize(dictionary, overall, comments).2;
      && (id in rest <==> id.qualifiedName !in Names(dictionary) && PagesIDCount(files, id) > 0)
      && (id in rest ==> rest[id] == PagesIDCount(files, id))
  {
    var (overall, comments) := Accumulate(dictionary, files);
    SummarizeRest(dictionary, overall, comments);
    if id.qualifiedName !in Names(dictionary) {
      AccumulateUnknown(dictionary, files, id);
      OutsideNameNotHead(dictionary, id);
    } else if id in overall {
      AccumulateKeys(dictionary, files, id);
    }
  }

  /** Summary line k+1 comes from group k's identity in what the first k
      groups left of the totals. */
  lemma SummarizeStep(dictionary: seq<seq<QualifiedName>>, overall: map<ID, int>, comments: map<ID, seq<string>>, k: nat)
    requires GroupsNonEmpty(dictionary) && k < |dictionary|
    ensures GroupsNonEmpty(dictionary[..k]) && GroupsNonEmpty(dictionary[..k + 1])
    ensures var id := GroupID(dictionary[k]);
      Summarize(dictionary[..k + 1], overall, comments).0 ==
        Summarize(dictionary[..k], overall, comments).0
          + SummaryLine(k + 1, dictionary[k][0].name, Count(Summarize(dictionary[..k], overall, comments).2, id), |Comments(comments, id)|)
  {
    var d := dictionary[..k + 1];
    assert d[..k] == dictionary[..k];
    assert d[k] == dictionary[k];
  }

  /** The total and the number of comments summary line k+1 reports. */
  lemma SummaryLineFacts(dictionary: seq<seq<QualifiedName>>, files: seq<(string, seq<Record>)>, k: nat)
    requires GroupsNonEmpty(dictionary) && HeadsDistinct(dictionary) && k < |dictionary|
    ensures GroupsNonEmpty(dictionary[..k])
    ensures Count(Summarize(dictionary[..k], Accumulate(dictionary, files).0, Accumulate(dictionary, files).1).2, GroupID(dictionary[k]))
      == PagesGroupTotal(dictionary, files, dictionary[k])
    ensures Comments(Accumulate(dictionary, files).1, GroupID(dictionary[k])) == PagesNameComments(files, dictionary[k][0])
  {
    var acc := Accumulate(dictionary, files);
    var id := GroupID(dictionary[k]);
    SummarizeRest(dictionary[..k], acc.0, acc.1);
    HeadNotEarlier(dictionary, k);
    AccumulateGroupTotal(dictionary, files, k);
    HeadIsName(dictionary, k);
    AccumulateComments(dictionary, files, id);
  }

  /** With distinct first names, the summary is one line per group: its
      number, its first name, its total over the pages, and how many
      non-empty comments its first name's records carry over the pages. */
  lemma {:induction false} ReportSummary(dictionary: seq<seq<QualifiedName>>, files: seq<(string, seq<Record>)>, k: nat)
    requires GroupsNonEmpty(dictionary) && HeadsDistinct(dictionary) && k <= |dictionary|
    ensures GroupsNonEmpty(dictionary[..k])
    ensures Summarize(dictionary[..k], Accumulate(dictionary, files).0, Accumulate(dictionary, files).1).0 == ReportLines(dictionary, files, k)
  {
    var acc := Accumulate(dictionary, files);
    if k > 0 {
      ReportSummary(dictionary, files, k - 1);
      SummarizeStep(dictionary, acc.0, acc.1, k - 1);
      SummaryLineFacts(dictionary, files, k - 1);
    }
  }
}
