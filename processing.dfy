/** The classifier and report assembler of internal/processor/processor.go.
    Records are counted per dictionary name ("known") or per full identity
    ("unknown"); the counts of every page are then folded into the report. */
module Processing {
  import opened Text
  import opened Entity
  import opened Generator
  import TableParsing

  // ---- map helpers ---------------------------------------------------------

  /** Reading a Go map: a missing key reads as zero. */
  function Count<K>(m: map<K, int>, k: K): int
  {
    if k in m then m[k] else 0
  }

  /** Reading a Go map of slices: a missing key reads as the empty slice. */
  function Comments(m: map<ID, seq<string>>, id: ID): seq<string>
  {
    if id in m then m[id] else []
  }

  /** The sum of all values of a map. */
  ghost function MapSum<K>(m: map<K, int>): int
    decreases |m.Keys|
  {
    if m.Keys == {} then 0
    else
      var k :| k in m.Keys;
      m[k] + MapSum(m - {k})
  }

  /** The sum does not depend on which key is taken out first. */
  lemma {:induction false} MapSumRemove<K>(m: map<K, int>, k: K)
    requires k in m
    ensures MapSum(m) == m[k] + MapSum(m - {k})
    decreases |m.Keys|
  {
    var j :| j in m.Keys && MapSum(m) == m[j] + MapSum(m - {j});
    if j != k {
      assert |(m - {j}).Keys| < |m.Keys| by {
        assert (m - {j}).Keys < m.Keys;
      }
      assert |(m - {k}).Keys| < |m.Keys| by {
        assert (m - {k}).Keys < m.Keys;
      }
      MapSumRemove(m - {j}, k);
      MapSumRemove(m - {k}, j);
      assert m - {j} - {k} == m - {k} - {j};
    }
  }

  /** Setting one key moves the sum by the difference. */
  lemma MapSumUpdate<K>(m: map<K, int>, k: K, v: int)
    ensures MapSum(m[k := v]) == MapSum(m) - Count(m, k) + v
  {
    MapSumRemove(m[k := v], k);
    assert m[k := v] - {k} == m - {k};
    if k in m {
      MapSumRemove(m, k);
    } else {
      assert m - {k} == m;
    }
  }

  // ---- classification ------------------------------------------------------

  /** The three maps of a Processor. */
  datatype Tally = Tally(known: map<QualifiedName, int>, unknown: map<ID, int>, commented: map<ID, seq<string>>)

  /** One record: a dictionary name (hint ignored) counts under that name and
      files a non-empty comment under the name with an empty hint; any other
      record counts and files its comment, even an empty one, under its full
      identity. */
  function Step(t: Tally, r: Record): Tally
  {
    var qn := r.id.qualifiedName;
    if qn !in t.known then
      Tally(t.known, t.unknown[r.id := Count(t.unknown, r.id) + 1],
            t.commented[r.id := Comments(t.commented, r.id) + [r.comment]])
    else
      var id := ID(qn, "");
      var commented := if |r.comment| > 0 then t.commented[id := Comments(t.commented, id) + [r.comment]] else t.commented;
      Tally(t.known[qn := t.known[qn] + 1], t.unknown, commented)
  }

  /** The tally after the records, in order. */
  function ProcessAll(t: Tally, rs: seq<Record>): Tally
  {
    if rs == [] then t else Step(ProcessAll(t, rs[..|rs| - 1]), rs[|rs| - 1])
  }

  /** How many records carry the qualified name. */
  function CountName(rs: seq<Record>, qn: QualifiedName): nat
  {
    if rs == [] then 0
    else CountName(rs[..|rs| - 1], qn) + (if rs[|rs| - 1].id.qualifiedName == qn then 1 else 0)
  }

  /** How many records carry the full identity. */
  function CountID(rs: seq<Record>, id: ID): nat
  {
    if rs == [] then 0
    else CountID(rs[..|rs| - 1], id) + (if rs[|rs| - 1].id == id then 1 else 0)
  }

  /** The non-empty comments of the records with the qualified name, in order. */
  function NameComments(rs: seq<Record>, qn: QualifiedName): seq<string>
  {
    if rs == [] then []
    else
      var r := rs[|rs| - 1];
      NameComments(rs[..|rs| - 1], qn) + (if r.id.qualifiedName == qn && |r.comment| > 0 then [r.comment] else [])
  }

  /** Every comment of the records with the full identity, in order. */
  function IDComments(rs: seq<Record>, id: ID): (cs: seq<string>)
    ensures |cs| == CountID(rs, id)
  {
    if rs == [] then []
    else
      var r := rs[|rs| - 1];
      IDComments(rs[..|rs| - 1], id) + (if r.id == id then [r.comment] else [])
  }

  /** Unknown identities never carry a known name. */
  predicate UnknownApart(t: Tally)
  {
    forall id :: id in t.unknown ==> id.qualifiedName !in t.known
  }

  // ---- properties of classification -----------------------------------------

  /** Processing never adds or removes a known name. */
  lemma {:induction false} ProcessKeepsKnownKeys(t: Tally, rs: seq<Record>)
    ensures ProcessAll(t, rs).known.Keys == t.known.Keys
  {
    if rs != [] {
      ProcessKeepsKnownKeys(t, rs[..|rs| - 1]);
    }
  }

  /** A known name's counter grows by the number of its records, hint ignored. */
  lemma {:induction false} ProcessCountsKnown(t: Tally, rs: seq<Record>, qn: QualifiedName)
    requires qn in t.known
    ensures qn in ProcessAll(t, rs).known
    ensures ProcessAll(t, rs).known[qn] == t.known[qn] + CountName(rs, qn)
  {
    if rs != [] {
      ProcessCountsKnown(t, rs[..|rs| - 1], qn);
      ProcessKeepsKnownKeys(t, rs[..|rs| - 1]);
    }
  }

  /** An identity with an unknown name counts its records; identities with a
      known name are never counted as unknown. */
  lemma {:induction false} ProcessCountsUnknown(t: Tally, rs: seq<Record>, id: ID)
    ensures id.qualifiedName !in t.known ==>
      Count(ProcessAll(t, rs).unknown, id) == Count(t.unknown, id) + CountID(rs, id)
    ensures id.qualifiedName in t.known ==> Count(ProcessAll(t, rs).unknown, id) == Count(t.unknown, id)
  {
    if rs != [] {
      ProcessCountsUnknown(t, rs[..|rs| - 1], id);
      ProcessKeepsKnownKeys(t, rs[..|rs| - 1]);
    }
  }

  /** Processing keeps unknown identities apart from known names. */
  lemma {:induction false} ProcessKeepsApart(t: Tally, rs: seq<Record>)
    requires UnknownApart(t)
    ensures UnknownApart(ProcessAll(t, rs))
  {
    if rs != [] {
      ProcessKeepsApart(t, rs[..|rs| - 1]);
      ProcessKeepsKnownKeys(t, rs[..|rs| - 1]);
    }
  }

  /** Comments are filed in record order: a known name's non-empty comments
      under the name with an empty hint, an unknown identity's comments, empty
      ones included, under the identity. */
  lemma {:induction false} ProcessFilesComments(t: Tally, rs: seq<Record>, id: ID)
    ensures id.qualifiedName in t.known && id.hint == "" ==>
      Comments(ProcessAll(t, rs).commented, id) == Comments(t.commented, id) + NameComments(rs, id.qualifiedName)
    ensures id.qualifiedName !in t.known ==>
      Comments(ProcessAll(t, rs).commented, id) == Comments(t.commented, id) + IDComments(rs, id)
    ensures id.qualifiedName in t.known && id.hint != "" ==>
      Comments(ProcessAll(t, rs).commented, id) == Comments(t.commented, id)
  {
    if rs != [] {
      var init := rs[..|rs| - 1];
      ProcessFilesComments(t, init, id);
      ProcessKeepsKnownKeys(t, init);
      var s := ProcessAll(t, init);
      var r := rs[|rs| - 1];
      if id.qualifiedName in t.known && id.hint == "" {
        assert Comments(t.commented, id) + NameComments(init, id.qualifiedName) + (if r.id.qualifiedName == id.qualifiedName && |r.comment| > 0 then [r.comment] else [])
          == Comments(t.commented, id) + NameComments(rs, id.qualifiedName);
      } else if id.qualifiedName !in t.known {
        assert Comments(t.commented, id) + IDComments(init, id) + (if r.id == id then [r.comment] else [])
          == Comments(t.commented, id) + IDComments(rs, id);
      }
    }
  }

  /** Starting without unknown identities, an unknown identity has exactly as
      many comments as its count. */
  lemma FreshUnknownCommentCount(known: map<QualifiedName, int>, rs: seq<Record>, id: ID)
    requires id.qualifiedName !in known
    ensures var t := ProcessAll(Tally(known, map[], map[]), rs);
      |Comments(t.commented, id)| == Count(t.unknown, id) == CountID(rs, id)
  {
    ProcessFilesComments(Tally(known, map[], map[]), rs, id);
    ProcessCountsUnknown(Tally(known, map[], map[]), rs, id);
  }

  /** Every record increments exactly one counter. */
  lemma {:induction false} ProcessCountsEveryRecord(t: Tally, rs: seq<Record>)
    ensures MapSum(ProcessAll(t, rs).known) + MapSum(ProcessAll(t, rs).unknown) == MapSum(t.known) + MapSum(t.unknown) + |rs|
  {
    if rs != [] {
      var init := rs[..|rs| - 1];
      ProcessCountsEveryRecord(t, init);
      var s := ProcessAll(t, init);
      var r := rs[|rs| - 1];
      var qn := r.id.qualifiedName;
      if qn !in s.known {
        MapSumUpdate(s.unknown, r.id, Count(s.unknown, r.id) + 1);
      } else {
        MapSumUpdate(s.known, qn, s.known[qn] + 1);
      }
    }
  }

  /** The classifier of one page. */
  class Processor {
    var known: map<QualifiedName, int>
    var unknown: map<ID, int>
    var commented: map<ID, seq<string>>

    function State(): Tally
      reads this
    {
      Tally(known, unknown, commented)
    }

    constructor ()
      ensures State() == Tally(map[], map[], map[])
    {
      known := map[];
      unknown := map[];
      commented := map[];
    }

    /** Every dictionary name gets a zero counter. */
    method Seed(dictionary: seq<seq<QualifiedName>>)
      modifies this
      ensures known == old(known) + Seeded(dictionary)
      ensures unknown == old(unknown) && commented == old(commented)
    {
      for i := 0 to |dictionary|
        invariant known == old(known) + Seeded(dictionary[..i])
        invariant unknown == old(unknown) && commented == old(commented)
      {
        var group := dictionary[i];
        ghost var before := known;
        for j := 0 to |group|
          invariant known == before + ZeroCounts(group[..j])
          invariant unknown == old(unknown) && commented == old(commented)
        {
          ZeroCountsStep(before, group, j);
          known := known[group[j] := 0];
        }
        assert group[..|group|] == group;
        SeededStep(old(known), dictionary, i);
      }
      assert dictionary[..|dictionary|] == dictionary;
    }

    /** Counts every record, in order. */
    method Process(records: seq<Record>)
      modifies this
      ensures State() == ProcessAll(old(State()), records)
    {
      for k := 0 to |records|
        invariant State() == ProcessAll(old(State()), records[..k])
      {
        var record := records[k];
        assert records[..k + 1][..k] == records[..k];
        var qn := record.id.qualifiedName;
        if qn !in known {
          var count := Count(unknown, record.id);
          unknown := unknown[record.id := count + 1];
          commented := commented[record.id := Comments(commented, record.id) + [record.comment]];
          continue;
        }
        var count := known[qn];
        if |record.comment| > 0 {
          var id := ID(qn, "");
          commented := commented[id := Comments(commented, id) + [record.comment]];
        }
        known := known[qn := count + 1];
      }
      assert records[..|records|] == records;
    }
  }

  // ---- seeding --------------------------------------------------------------

  /** A zero counter for each name. */
  function ZeroCounts(names: seq<QualifiedName>): map<QualifiedName, int>
  {
    map n | n in names :: 0
  }

  /** A zero counter for each name of the dictionary. */
  function Seeded(dictionary: seq<seq<QualifiedName>>): map<QualifiedName, int>
  {
    map n | n in Names(dictionary) :: 0
  }

  function Names(dictionary: seq<seq<QualifiedName>>): set<QualifiedName>
  {
    set i, n | 0 <= i < |dictionary| && n in dictionary[i] :: n
  }

  lemma ZeroCountsStep(m: map<QualifiedName, int>, names: seq<QualifiedName>, j: nat)
    requires j < |names|
    ensures (m + ZeroCounts(names[..j]))[names[j] := 0] == m + ZeroCounts(names[..j + 1])
  {
    assert names[..j + 1] == names[..j] + [names[j]];
  }

  lemma SeededStep(m: map<QualifiedName, int>, dictionary: seq<seq<QualifiedName>>, i: nat)
    requires i < |dictionary|
    ensures m + Seeded(dictionary[..i]) + ZeroCounts(dictionary[i]) == m + Seeded(dictionary[..i + 1])
  {
    assert Names(dictionary[..i + 1]) == Names(dictionary[..i]) + set n | n in dictionary[i] by {
      forall n | n in Names(dictionary[..i + 1]) ensures n in Names(dictionary[..i]) || n in dictionary[i] {
        var k :| 0 <= k < i + 1 && n in dictionary[..i + 1][k];
        if k < i { assert dictionary[..i + 1][k] == dictionary[..i][k]; }
      }
      forall n | n in Names(dictionary[..i]) ensures n in Names(dictionary[..i + 1]) {
        var k :| 0 <= k < i && n in dictionary[..i][k];
        assert dictionary[..i][k] == dictionary[..i + 1][k];
      }
      assert dictionary[..i + 1][i] == dictionary[i];
    }
  }

  // ---- report assembly: specification ----------------------------------------

  /** Every group of the dictionary names at least one entry: the assembler
      reads `group[0]` of each. */
  predicate GroupsNonEmpty(dictionary: seq<seq<QualifiedName>>)
  {
    forall i :: 0 <= i < |dictionary| ==> |dictionary[i]| > 0
  }

  /** The identity a group is reported under: its first name, no hint. */
  function GroupID(group: seq<QualifiedName>): ID
    requires |group| > 0
  {
    ID(group[0], "")
  }

  /** The tally of one page: all dictionary names at zero, then its records. */
  function PageTally(dictionary: seq<seq<QualifiedName>>, records: seq<Record>): Tally
  {
    ProcessAll(Tally(Seeded(dictionary), map[], map[]), records)
  }

  function GroupTotal(known: map<QualifiedName, int>, group: seq<QualifiedName>): int
  {
    if group == [] then 0 else GroupTotal(known, group[..|group| - 1]) + Count(known, group[|group| - 1])
  }

  function GroupEntries(known: map<QualifiedName, int>, group: seq<QualifiedName>): seq<Entry>
  {
    seq(|group|, j requires 0 <= j < |group| => Entry(ID(group[j], ""), Count(known, group[j])))
  }

  /** A page's groups: one per dictionary group, its names in order. */
  function KnownGroups(known: map<QualifiedName, int>, dictionary: seq<seq<QualifiedName>>): seq<Group>
  {
    seq(|dictionary|, i requires 0 <= i < |dictionary| => Group(GroupEntries(known, dictionary[i]), GroupTotal(known, dictionary[i])))
  }

  /** `es` lists the entries of `m`, each key once, in some order (the order
      of Go's map iteration). */
  predicate Lists(es: seq<Entry>, m: map<ID, int>)
  {
    ListsOn(es, m, m.Keys)
  }

  /** `es` lists the entries of `m` under `keys`, each key once. */
  predicate ListsOn(es: seq<Entry>, m: map<ID, int>, keys: set<ID>)
  {
    && (forall i :: 0 <= i < |es| ==> es[i].id in keys && es[i].id in m && es[i].count == m[es[i].id])
    && (forall id :: id in keys ==> exists i :: 0 <= i < |es| && es[i].id == id)
    && (forall i, j :: 0 <= i < j < |es| ==> es[i].id != es[j].id)
  }

  lemma ListsOnStep(es: seq<Entry>, m: map<ID, int>, keys: set<ID>, id: ID)
    requires ListsOn(es, m, keys) && id in m && id !in keys
    ensures ListsOn(es + [Entry(id, m[id])], m, keys + {id})
  {
    var es' := es + [Entry(id, m[id])];
    forall k | k in keys + {id} ensures exists i :: 0 <= i < |es'| && es'[i].id == k {
      if k == id {
        assert es'[|es|].id == k;
      } else {
        var i :| 0 <= i < |es| && es[i].id == k;
        assert es'[i].id == k;
      }
    }
  }

  /** `fs` lists the comment lists of `m`, each key once, in some order. */
  predicate ListsFootnotes(fs: seq<Footnote>, m: map<ID, seq<string>>)
  {
    FootnotesOn(fs, m, m.Keys)
  }

  predicate FootnotesOn(fs: seq<Footnote>, m: map<ID, seq<string>>, keys: set<ID>)
  {
    && (forall i :: 0 <= i < |fs| ==> fs[i].id in keys && fs[i].id in m && fs[i].comments == m[fs[i].id])
    && (forall id :: id in keys ==> exists i :: 0 <= i < |fs| && fs[i].id == id)
    && (forall i, j :: 0 <= i < j < |fs| ==> fs[i].id != fs[j].id)
  }

  lemma FootnotesOnStep(fs: seq<Footnote>, m: map<ID, seq<string>>, keys: set<ID>, id: ID)
    requires FootnotesOn(fs, m, keys) && id in m && id !in keys
    ensures FootnotesOn(fs + [Footnote(id, m[id])], m, keys + {id})
  {
    var fs' := fs + [Footnote(id, m[id])];
    forall k | k in keys + {id} ensures exists i :: 0 <= i < |fs'| && fs'[i].id == k {
      if k == id {
        assert fs'[|fs|].id == k;
      } else {
        var i :| 0 <= i < |fs| && fs[i].id == k;
        assert fs'[i].id == k;
      }
    }
  }

  /** Each group's total added under the group's identity. */
  function AddGroupTotals(overall: map<ID, int>, known: map<QualifiedName, int>, dictionary: seq<seq<QualifiedName>>): map<ID, int>
    requires GroupsNonEmpty(dictionary)
  {
    if dictionary == [] then overall
    else
      var o := AddGroupTotals(overall, known, dictionary[..|dictionary| - 1]);
      var id := GroupID(dictionary[|dictionary| - 1]);
      o[id := Count(o, id) + GroupTotal(known, dictionary[|dictionary| - 1])]
  }

  /** Counts added key by key. */
  function AddCounts(overall: map<ID, int>, counts: map<ID, int>): map<ID, int>
  {
    map id | id in overall.Keys + counts.Keys :: Count(overall, id) + Count(counts, id)
  }

  /** The non-empty strings, in order. */
  function NonEmpty(cs: seq<string>): seq<string>
  {
    if cs == [] then []
    else NonEmpty(cs[..|cs| - 1]) + (if |cs[|cs| - 1]| > 0 then [cs[|cs| - 1]] else [])
  }

  /** The identities that have at least one non-empty comment. */
  function CommentedIDs(commented: map<ID, seq<string>>): set<ID>
  {
    set id | id in commented && NonEmpty(commented[id]) != []
  }

  /** A page's non-empty comments appended, identity by identity. */
  function MergeComments(overall: map<ID, seq<string>>, commented: map<ID, seq<string>>): map<ID, seq<string>>
  {
    map id | id in overall.Keys + CommentedIDs(commented) :: Comments(overall, id) + NonEmpty(Comments(commented, id))
  }

  /** The running totals and comments after the pages, in order. */
  function Accumulate(dictionary: seq<seq<QualifiedName>>, files: seq<(string, seq<Record>)>): (map<ID, int>, map<ID, seq<string>>)
    requires GroupsNonEmpty(dictionary)
  {
    if files == [] then (map[], map[])
    else
      var (overall, comments) := Accumulate(dictionary, files[..|files| - 1]);
      var t := PageTally(dictionary, files[|files| - 1].1);
      (AddCounts(AddGroupTotals(overall, t.known, dictionary), t.unknown), MergeComments(comments, t.commented))
  }

  /** The comment of a summary line for a group with `times` comments. */
  function SummaryComment(times: int): string
  {
    if times > 0 then "в " + Plural("випадку", "випадках", "випадках", times) + " M затриманих"
    else TableParsing.Sentinel
  }

  /** Line n of the summary. */
  function SummaryLine(n: int, name: string, total: int, times: int): string
  {
    IntToString(n) + ". " + name + " - польотів: " + IntToString(total) + ", " + SummaryComment(times) + ";\n"
  }

  /** The summary, the per-group totals and the totals left over once each
      group's identity has been taken out. */
  function Summarize(dictionary: seq<seq<QualifiedName>>, overall: map<ID, int>, comments: map<ID, seq<string>>): (string, seq<Entry>, map<ID, int>)
    requires GroupsNonEmpty(dictionary)
  {
    if dictionary == [] then ("", [], overall)
    else
      var (summary, totals, rest) := Summarize(dictionary[..|dictionary| - 1], overall, comments);
      var group := dictionary[|dictionary| - 1];
      var id := GroupID(group);
      var total := Count(rest, id);
      (summary + SummaryLine(|dictionary|, group[0].name, total, |Comments(comments, id)|),
       totals + [Entry(id, total)],
       rest - {id})
  }

  /** What one page of the report holds. */
  predicate PageOf(page: Page, dictionary: seq<seq<QualifiedName>>, file: (string, seq<Record>))
  {
    var t := PageTally(dictionary, file.1);
    && page.filename == file.0
    && page.knownGroups == KnownGroups(t.known, dictionary)
    && Lists(page.unknownEntries, t.unknown)
  }

  // ---- report assembly: the closure -------------------------------------------

  /** The report-building closure of NewProcessor(dictionary), applied to the
      pages' file names and extracted records. */
  method Assemble(dictionary: seq<seq<QualifiedName>>, files: seq<(string, seq<Record>)>) returns (out: Data)
    requires GroupsNonEmpty(dictionary)
    ensures out.records == []
    ensures |out.pages| == |files|
    ensures forall f :: 0 <= f < |files| ==> PageOf(out.pages[f], dictionary, files[f])
    ensures var (overall, comments) := Accumulate(dictionary, files);
      var (summary, totals, rest) := Summarize(dictionary, overall, comments);
      && out.summary == summary && out.total == totals
      && Lists(out.totalUnknown, rest)
      && ListsFootnotes(out.footnotes, comments)
  {
    var overall: map<ID, int> := map[];
    var overallComments: map<ID, seq<string>> := map[];
    var pages: seq<Page> := [];
    for f := 0 to |files|
      invariant (overall, overallComments) == Accumulate(dictionary, files[..f])
      invariant |pages| == f && forall k :: 0 <= k < f ==> PageOf(pages[k], dictionary, files[k])
    {
      assert files[..f + 1][..f] == files[..f] && files[..f + 1][f] == files[f];
      var p := new Processor();
      p.Seed(dictionary);
      assert map[] + Seeded(dictionary) == Seeded(dictionary);
      p.Process(files[f].1);
      ghost var t := PageTally(dictionary, files[f].1);
      assert p.State() == t;
      overallComments := FoldComments(p.commented, overallComments);
      var groups;
      groups, overall := BuildGroups(dictionary, p.known, overall);
      var unknownEntries;
      unknownEntries, overall := ListUnknown(p.unknown, overall);
      var page := Page(files[f].0, groups, unknownEntries);
      assert PageOf(page, dictionary, files[f]);
      forall k | 0 <= k < f + 1 ensures PageOf((pages + [page])[k], dictionary, files[k]) {
        if k < f {
          assert (pages + [page])[k] == pages[k];
        }
      }
      pages := pages + [page];
    }
    assert files[..|files|] == files;
    var summary, total;
    summary, total, overall := SummarizeGroups(dictionary, overall, overallComments);
    var totalUnknown := ListEntries(overall);
    var footnotes := ListFootnotes(overallComments);
    out := Data([], pages, total, totalUnknown, footnotes, summary);
  }

  /** Appends every non-empty comment of the page under its identity. */
  method FoldComments(commented: map<ID, seq<string>>, overall: map<ID, seq<string>>) returns (r: map<ID, seq<string>>)
    ensures r == MergeComments(overall, commented)
  {
    r := overall;
    var keys := commented.Keys;
    ghost var visited: set<ID> := {};
    while keys != {}
      invariant keys + visited == commented.Keys && keys !! visited
      invariant FoldedOn(r, overall, commented, visited)
      decreases keys
    {
      var id :| id in keys;
      ghost var before := r;
      r := AppendNonEmpty(r, id, commented[id]);
      FoldedOnStep(before, r, overall, commented, visited, id);
      keys := keys - {id};
      visited := visited + {id};
    }
    MergeCommentsPointwise(r, overall, commented);
  }

  /** `r` is `overall` with the non-empty comments of `commented` under
      `visited` appended. */
  ghost predicate FoldedOn(r: map<ID, seq<string>>, overall: map<ID, seq<string>>, commented: map<ID, seq<string>>, visited: set<ID>)
  {
    KeysFolded(r, overall, commented, visited) && CommentsFolded(r, overall, commented, visited)
  }

  ghost predicate KeysFolded(r: map<ID, seq<string>>, overall: map<ID, seq<string>>, commented: map<ID, seq<string>>, visited: set<ID>)
  {
    forall id :: id in r <==> id in overall || (id in visited && id in commented && NonEmpty(commented[id]) != [])
  }

  ghost predicate CommentsFolded(r: map<ID, seq<string>>, overall: map<ID, seq<string>>, commented: map<ID, seq<string>>, visited: set<ID>)
  {
    forall id :: Comments(r, id) == Comments(overall, id) + (if id in visited && id in commented then NonEmpty(commented[id]) else [])
  }

  lemma FoldedOnStep(before: map<ID, seq<string>>, r: map<ID, seq<string>>, overall: map<ID, seq<string>>,
                     commented: map<ID, seq<string>>, visited: set<ID>, id: ID)
    requires FoldedOn(before, overall, commented, visited) && id in commented && id !in visited
    requires forall other :: other != id ==> (other in r <==> other in before) && Comments(r, other) == Comments(before, other)
    requires id in r <==> id in before || NonEmpty(commented[id]) != []
    requires Comments(r, id) == Comments(before, id) + NonEmpty(commented[id])
    ensures FoldedOn(r, overall, commented, visited + {id})
  {
    KeysFoldedStep(before, r, overall, commented, visited, id);
    CommentsFoldedStep(before, r, overall, commented, visited, id);
  }

  lemma KeysFoldedStep(before: map<ID, seq<string>>, r: map<ID, seq<string>>, overall: map<ID, seq<string>>,
                       commented: map<ID, seq<string>>, visited: set<ID>, id: ID)
    requires KeysFolded(before, overall, commented, visited) && id in commented && id !in visited
    requires forall other :: other != id ==> (other in r <==> other in before)
    requires id in r <==> id in before || NonEmpty(commented[id]) != []
    ensures KeysFolded(r, overall, commented, visited + {id})
  {
    var v := visited + {id};
    forall k ensures k in r <==> k in overall || (k in v && k in commented && NonEmpty(commented[k]) != []) {
      if k != id {
        assert k in r <==> k in before;
      }
    }
  }

  lemma CommentsFoldedStep(before: map<ID, seq<string>>, r: map<ID, seq<string>>, overall: map<ID, seq<string>>,
                           commented: map<ID, seq<string>>, visited: set<ID>, id: ID)
    requires CommentsFolded(before, overall, commented, visited) && id in commented && id !in visited
    requires forall other :: other != id ==> Comments(r, other) == Comments(before, other)
    requires Comments(r, id) == Comments(before, id) + NonEmpty(commented[id])
    ensures CommentsFolded(r, overall, commented, visited + {id})
  {
    var v := visited + {id};
    forall k ensures Comments(r, k) == Comments(overall, k) + (if k in v && k in commented then NonEmpty(commented[k]) else []) {
      var old_k := Comments(before, k);
      assert old_k == Comments(overall, k) + (if k in visited && k in commented then NonEmpty(commented[k]) else []);
      if k != id {
        assert Comments(r, k) == old_k;
      } else {
        var added := NonEmpty(commented[id]);
        var prior := Comments(overall, id);
        assert old_k == prior + [] == prior;
        assert Comments(r, id) == old_k + added;
      }
    }
  }

  lemma MergeCommentsPointwise(r: map<ID, seq<string>>, overall: map<ID, seq<string>>, commented: map<ID, seq<string>>)
    requires FoldedOn(r, overall, commented, commented.Keys)
    ensures r == MergeComments(overall, commented)
  {
    var m := MergeComments(overall, commented);
    forall id ensures id in r <==> id in m {
      assert id in CommentedIDs(commented) <==> id in commented && NonEmpty(commented[id]) != [];
    }
    forall id | id in r ensures r[id] == m[id] {
      assert Comments(r, id) == r[id];
    }
  }

  /** Appends the non-empty comments under one identity. */
  method AppendNonEmpty(m: map<ID, seq<string>>, id: ID, comments: seq<string>) returns (r: map<ID, seq<string>>)
    ensures forall other :: other != id ==> (other in r <==> other in m) && Comments(r, other) == Comments(m, other)
    ensures id in r <==> id in m || NonEmpty(comments) != []
    ensures Comments(r, id) == Comments(m, id) + NonEmpty(comments)
  {
    r := m;
    for k := 0 to |comments|
      invariant forall other :: other != id ==> (other in r <==> other in m) && Comments(r, other) == Comments(m, other)
      invariant id in r <==> id in m || NonEmpty(comments[..k]) != []
      invariant Comments(r, id) == Comments(m, id) + NonEmpty(comments[..k])
    {
      assert comments[..k + 1][..k] == comments[..k];
      if |comments[k]| > 0 {
        r := r[id := Comments(r, id) + [comments[k]]];
      }
    }
    assert comments[..|comments|] == comments;
  }

  /** The page's groups, each total added under the group's identity. */
  method BuildGroups(dictionary: seq<seq<QualifiedName>>, known: map<QualifiedName, int>, overall: map<ID, int>)
    returns (groups: seq<Group>, r: map<ID, int>)
    requires GroupsNonEmpty(dictionary)
    ensures groups == KnownGroups(known, dictionary)
    ensures r == AddGroupTotals(overall, known, dictionary)
  {
    groups := [];
    r := overall;
    for i := 0 to |dictionary|
      invariant groups == KnownGroups(known, dictionary[..i])
      invariant r == AddGroupTotals(overall, known, dictionary[..i])
    {
      assert dictionary[..i + 1][..i] == dictionary[..i];
      var group := dictionary[i];
      var total := 0;
      var entries: seq<Entry> := [];
      for j := 0 to |group|
        invariant entries == GroupEntries(known, group[..j])
        invariant total == GroupTotal(known, group[..j])
      {
        assert group[..j + 1][..j] == group[..j];
        var count := Count(known, group[j]);
        entries := entries + [Entry(ID(group[j], ""), count)];
        total := total + count;
      }
      assert group[..|group|] == group;
      var id := ID(group[0], "");
      r := r[id := Count(r, id) + total];
      groups := groups + [Group(entries, total)];
    }
    assert dictionary[..|dictionary|] == dictionary;
  }

  /** The page's unknown entries, each count added to the running totals. */
  method ListUnknown(unknown: map<ID, int>, overall: map<ID, int>) returns (entries: seq<Entry>, r: map<ID, int>)
    ensures Lists(entries, unknown)
    ensures r == AddCounts(overall, unknown)
  {
    entries := [];
    r := overall;
    var keys := unknown.Keys;
    ghost var visited: set<ID> := {};
    while keys != {}
      invariant keys + visited == unknown.Keys && keys !! visited
      invariant ListsOn(entries, unknown, visited)
      invariant r.Keys == overall.Keys + visited
      invariant forall id :: Count(r, id) == Count(overall, id) + (if id in visited then unknown[id] else 0)
      decreases keys
    {
      var id :| id in keys;
      ListsOnStep(entries, unknown, visited, id);
      entries := entries + [Entry(id, unknown[id])];
      r := r[id := Count(r, id) + unknown[id]];
      keys := keys - {id};
      visited := visited + {id};
    }
  }

  /** The summary lines and the per-group totals; each group's identity is
      taken out of the running totals. */
  method SummarizeGroups(dictionary: seq<seq<QualifiedName>>, overall: map<ID, int>, comments: map<ID, seq<string>>)
    returns (summary: string, totals: seq<Entry>, rest: map<ID, int>)
    requires GroupsNonEmpty(dictionary)
    ensures (summary, totals, rest) == Summarize(dictionary, overall, comments)
  {
    summary := "";
    totals := [];
    rest := overall;
    for i := 0 to |dictionary|
      invariant (summary, totals, rest) == Summarize(dictionary[..i], overall, comments)
    {
      assert dictionary[..i + 1][..i] == dictionary[..i];
      var group := dictionary[i];
      var name := group[0];
      var id := ID(name, "");
      var total := Count(rest, id);
      rest := rest - {id};
      var comment := TableParsing.Sentinel;
      var times := |Comments(comments, id)|;
      if times > 0 {
        comment := "в " + Plural("випадку", "випадках", "випадках", times) + " M затриманих";
      }
      var line := IntToString(i + 1) + ". " + name.name + " - польотів: " + IntToString(total) + ", " + comment + ";\n";
      assert line == SummaryLine(i + 1, group[0].name, total, times);
      summary := summary + line;
      totals := totals + [Entry(id, total)];
    }
    assert dictionary[..|dictionary|] == dictionary;
  }

  /** The entries of a map, in the map's iteration order. */
  method ListEntries(m: map<ID, int>) returns (entries: seq<Entry>)
    ensures Lists(entries, m)
  {
    entries := [];
    var keys := m.Keys;
    ghost var visited: set<ID> := {};
    while keys != {}
      invariant keys + visited == m.Keys && keys !! visited
      invariant ListsOn(entries, m, visited)
      decreases keys
    {
      var id :| id in keys;
      ListsOnStep(entries, m, visited, id);
      entries := entries + [Entry(id, m[id])];
      keys := keys - {id};
      visited := visited + {id};
    }
  }

  /** The footnotes of a comment map, in the map's iteration order. */
  method ListFootnotes(m: map<ID, seq<string>>) returns (notes: seq<Footnote>)
    ensures ListsFootnotes(notes, m)
  {
    notes := [];
    var keys := m.Keys;
    ghost var visited: set<ID> := {};
    while keys != {}
      invariant keys + visited == m.Keys && keys !! visited
      invariant FootnotesOn(notes, m, visited)
      decreases keys
    {
      var id :| id in keys;
      FootnotesOnStep(notes, m, visited, id);
      notes := notes + [Footnote(id, m[id])];
      keys := keys - {id};
      visited := visited + {id};
    }
  }
}
