/** The deterministic report over a set of evidence, and the evidence the model generator selects. */
module EvidenceReport {
  import opened Outcomes
  import opened OrderedDict
  import opened Sorting
  import opened Counting
  import opened Text
  import opened RcaDomain
  import Decimal
  import Guards = ReportGuardrails

  // ---------------------------------------------------------------- evidence

  function Ids(evidence: seq<Evidence>): (r: seq<string>)
    ensures |r| == |evidence| && forall i :: 0 <= i < |r| ==> r[i] == evidence[i].id
  {
    seq(|evidence|, i requires 0 <= i < |evidence| => evidence[i].id)
  }

  function Kinds(evidence: seq<Evidence>): (r: seq<string>)
    ensures |r| == |evidence| && forall i :: 0 <= i < |r| ==> r[i] == KindName(evidence[i].kind)
  {
    seq(|evidence|, i requires 0 <= i < |evidence| => KindName(evidence[i].kind))
  }

  /** What `validate_report_evidence` accepts. */
  predicate ValidEvidence(command: Command, evidence: seq<Evidence>) {
    && 1 <= |evidence| <= 100
    && NoDuplicates(Ids(evidence))
    && forall i :: 0 <= i < |evidence| ==> evidence[i].command == command
  }

  predicate IdLe(a: Evidence, b: Evidence) { StringLe(a.id, b.id) }

  function SortedById(evidence: seq<Evidence>): seq<Evidence> { Sort(IdLe, evidence) }

  /** The evidence that goes into the model request. */
  function Selected(evidence: seq<Evidence>, most: nat): seq<Evidence> {
    var ordered := SortedById(evidence);
    if most <= |ordered| then ordered[..most] else ordered
  }

  // ---------------------------------------------------------------- documents

  /** A report without its time stamp and its root cause context. */
  datatype Document = Document(id: string, command: Command, title: string, head: Guards.Report, evidenceIds: seq<string>,
                               counts: Items<string, nat>, advice: seq<string>, generator: string, version: string) {

    /** What constructing a report checks of these fields. */
    ghost predicate Valid() {
      && IsLine(id, 64) && command.Valid() && IsLine(title, 256) && IsLine(generator, 128) && IsLine(version, 64)
      && head.Valid()
      && 1 <= |evidenceIds| <= 100 && NoDuplicates(evidenceIds) && (forall i :: 0 <= i < |evidenceIds| ==> IsLine(evidenceIds[i], 64))
      && |advice| <= 20 && (forall i :: 0 <= i < |advice| ==> IsLine(advice[i], 1024))
      && counts != []
      && (forall i :: 0 <= i < |counts| ==> counts[i].1 >= 1 && IsLine(counts[i].0, 32))
      && Ordered(NameLe, counts) && NoDuplicates(Keys(counts))
      && Sum(counts) == |evidenceIds|
    }
  }

  function KindCounts(evidence: seq<Evidence>): Items<string, nat> { SortedItems(CounterOf(Kinds(evidence))) }

  function CountTexts(counts: Items<string, nat>): (r: seq<string>)
    ensures |r| == |counts|
    ensures forall i :: 0 <= i < |r| ==> r[i] == counts[i].0 + "=" + Decimal.Print(counts[i].1)
  {
    if counts == [] then []
    else [counts[0].0 + "=" + Decimal.Print(counts[0].1)] + CountTexts(counts[1..])
  }

  const HEAD: string := "Collected "
  const MIDDLE: string := " evidence items ("
  const NO_CANDIDATE: string := "). No verified root cause candidate was "
  const GENERATOR: string := "produced by the deterministic generator."
  const TAIL: string := NO_CANDIDATE + GENERATOR

  function Summary(n: nat, counts: Items<string, nat>): string {
    HEAD + Decimal.Print(n) + MIDDLE + Join(", ", CountTexts(counts)) + TAIL
  }

  const TITLE: string := "Root cause requires human review"
  const REVIEW: string := "Review the cited evidence before "
  const BEFORE: string := "taking remediation action."
  const ADVICE: string := REVIEW + BEFORE
  const NAME: string := "deterministic-evidence-summary"

  function Citations(evidence: seq<Evidence>): seq<string> {
    if evidence == [] then [] else [evidence[0].id + ":" + evidence[0].sha256] + Citations(evidence[1..])
  }

  function ReportId(digest: string -> string, command: Command, ordered: seq<Evidence>): string {
    digest(Join("|", [command.tenant, command.run, Decimal.Print(command.attempt),
                      NAME, "v1"] + Citations(ordered)))
  }

  /** The deterministic report; its time stamp is not part of it. */
  function Generate(digest: string -> string, command: Command, evidence: seq<Evidence>): Document {
    var ordered := SortedById(evidence);
    var counts := KindCounts(ordered);
    Document(ReportId(digest, command, ordered), command, TITLE,
             Guards.Report(Undetermined, Summary(|ordered|, counts), 0.0, false), Ids(ordered), counts, [ADVICE], NAME, "v1")
  }

  // ---------------------------------------------------------------- order independence

  lemma IdOrder()
    ensures IsPreorder(IdLe)
  {
    forall x, y ensures IdLe(x, y) || IdLe(y, x) { StringLeTotal(x.id, y.id); }
    forall x, y, z | IdLe(x, y) && IdLe(y, z) ensures IdLe(x, z) { StringLeTransitive(x.id, y.id, z.id); }
  }

  lemma IdsSeparate(evidence: seq<Evidence>)
    requires NoDuplicates(Ids(evidence))
    ensures Separates(IdLe, multiset(evidence))
  {
    forall x, y | x in multiset(evidence) && y in multiset(evidence) && IdLe(x, y) && IdLe(y, x) ensures x == y {
      StringLeAntisymmetric(x.id, y.id);
      var i :| 0 <= i < |evidence| && evidence[i] == x;
      var j :| 0 <= j < |evidence| && evidence[j] == y;
      assert Ids(evidence)[i] == Ids(evidence)[j];
    }
  }

  /** Neither the report nor the selection depends on the order in which the evidence is given. */
  lemma OrderDoesNotMatter(digest: string -> string, command: Command, a: seq<Evidence>, b: seq<Evidence>, most: nat)
    requires NoDuplicates(Ids(a)) && multiset(a) == multiset(b)
    ensures Generate(digest, command, a) == Generate(digest, command, b)
    ensures Selected(a, most) == Selected(b, most)
  {
    IdOrder();
    IdsSeparate(a);
    SortIgnoresOrder(IdLe, a, b);
  }

  // ---------------------------------------------------------------- the generated report is a valid one

  lemma TailIds(evidence: seq<Evidence>)
    requires evidence != [] && NoDuplicates(Ids(evidence))
    ensures NoDuplicates(Ids(evidence[1..])) && evidence[0] !in evidence[1..]
  {
    assert Ids(evidence) == [evidence[0].id] + Ids(evidence[1..]);
    var ids := Ids(evidence);
    forall i, j | 0 <= i < j < |evidence| - 1 ensures Ids(evidence[1..])[i] != Ids(evidence[1..])[j] {
      assert ids[i + 1] != ids[j + 1];
    }
    forall j | 0 <= j < |evidence| - 1 ensures evidence[1..][j] != evidence[0] {
      assert ids[0] != ids[j + 1];
    }
  }

  lemma {:induction false} CountOccurrences(evidence: seq<Evidence>, e: Evidence)
    requires NoDuplicates(Ids(evidence))
    ensures multiset(evidence)[e] <= 1
  {
    hide NoDuplicates;
    if evidence != [] {
      TailIds(evidence);
      CountOccurrences(evidence[1..], e);
      assert evidence == [evidence[0]] + evidence[1..];
    }
  }

  lemma SortedIdsDistinct(evidence: seq<Evidence>)
    requires NoDuplicates(Ids(evidence))
    ensures NoDuplicates(Ids(SortedById(evidence)))
  {
    var ordered := SortedById(evidence);
    SortKeeps(IdLe, evidence);
    IdsSeparate(evidence);
    forall i, j | 0 <= i < j < |ordered| ensures ordered[i].id != ordered[j].id {
      if ordered[i].id == ordered[j].id {
        assert ordered[i] in multiset(ordered) && ordered[j] in multiset(ordered);
        SelfLe(ordered[i].id);
        assert ordered[i] == ordered[j];
        RepeatsCount(ordered, i, j);
        CountOccurrences(evidence, ordered[i]);
      }
    }
  }

  lemma SelfLe(s: string)
    ensures StringLe(s, s)
  {
    StringLeTotal(s, s);
  }

  /** For every list of evidence the counts pass the checks a report makes on them, and count each kind. */
  lemma CountsPassChecks(evidence: seq<Evidence>)
    requires evidence != []
    ensures var counts := KindCounts(evidence);
            && counts != [] && (forall i :: 0 <= i < |counts| ==> counts[i].1 >= 1)
            && Ordered(NameLe, counts) && NoDuplicates(Keys(counts)) && Sum(counts) == |evidence|
            && (forall i :: 0 <= i < |counts| ==> counts[i].0 in Kinds(evidence))
            && (forall i :: 0 <= i < |counts| ==> counts[i].1 == multiset(Kinds(evidence))[counts[i].0])
  {
    SortedCounter(Kinds(evidence));
  }

  lemma {:induction false} SumBounds(d: Items<string, nat>)
    requires forall i :: 0 <= i < |d| ==> d[i].1 >= 1
    ensures |d| <= Sum(d) && forall i :: 0 <= i < |d| ==> d[i].1 <= Sum(d)
  {
    if d != [] { SumBounds(d[1..]); }
  }

  /** Text on one line without control characters and colons. */
  predicate Clean(s: string) {
    forall i :: 0 <= i < |s| ==> s[i] >= ' ' && s[i] != '\U{7F}' && s[i] != ':'
  }

  lemma KindNameForm(kind: EvidenceType)
    ensures Clean(KindName(kind)) && |KindName(kind)| <= 16 && IsLine(KindName(kind), 32)
  {}

  lemma SmallPrints(n: nat)
    requires n <= 100
    ensures |Decimal.Print(n)| <= 3 && Clean(Decimal.Print(n))
  {
    assert n < 10 || n / 10 < 10 || n / 10 / 10 < 10;
  }

  lemma {:induction false} JoinedCounts(parts: seq<string>)
    requires forall i :: 0 <= i < |parts| ==> |parts[i]| <= 20 && Clean(parts[i])
    ensures |Join(", ", parts)| <= 22 * |parts| && Clean(Join(", ", parts))
  {
    if |parts| > 1 { JoinedCounts(parts[1..]); }
  }

  lemma CountTextForm(name: string, n: nat)
    requires |name| <= 16 && Clean(name) && n <= 100
    ensures |name + "=" + Decimal.Print(n)| <= 20 && Clean(name + "=" + Decimal.Print(n))
  {
    SmallPrints(n);
  }

  lemma FixedTexts()
    ensures Clean(HEAD) && Clean(MIDDLE) && Clean(TAIL)
    ensures |HEAD| == 10 && |MIDDLE| == 17 && |TAIL| == 80
    ensures HEAD[0] == 'C' && TAIL[79] == '.'
  {
    TailStart();
    TailEnd();
    assert TAIL == NO_CANDIDATE + GENERATOR;
  }

  lemma TailStart()
    ensures Clean(NO_CANDIDATE)
  {}

  lemma TailEnd()
    ensures Clean(GENERATOR)
  {}

  /** The fixed texts of the report are lines of the required lengths. */
  lemma FixedLines()
    ensures IsLine(TITLE, 256) && IsLine(ADVICE, 1024) && IsLine(NAME, 128) && IsLine("v1", 64)
  {
    AdviceStart();
    AdviceEnd();
    assert ADVICE == REVIEW + BEFORE;
    assert forall i :: 0 <= i < |ADVICE| ==> ADVICE[i] == if i < |REVIEW| then REVIEW[i] else BEFORE[i - |REVIEW|];
  }

  lemma AdviceStart()
    ensures Clean(REVIEW)
  {}

  lemma AdviceEnd()
    ensures Clean(BEFORE)
  {}

  lemma SummaryFits(n: nat, counts: Items<string, nat>)
    requires n <= 100 && |counts| <= 100
    requires forall i :: 0 <= i < |counts| ==>
               |counts[i].0| <= 16 && Clean(counts[i].0) && counts[i].1 <= 100
    ensures Guards.ValidSummary(Summary(n, counts)) && Clean(Summary(n, counts))
  {
    hide Decimal.Print;
    hide Join;
    FixedTexts();
    SmallPrints(n);
    var texts := CountTexts(counts);
    forall i | 0 <= i < |texts| ensures |texts[i]| <= 20 && Clean(texts[i]) {
      CountTextForm(counts[i].0, counts[i].1);
    }
    JoinedCounts(texts);
    ConcatPlain(HEAD, Decimal.Print(n), MIDDLE, Join(", ", texts), TAIL);
  }

  lemma ConcatPlain(a: string, b: string, c: string, d: string, e: string)
    requires Clean(a) && Clean(b) && Clean(c) && Clean(d) && Clean(e)
    ensures Clean(a + b + c + d + e)
  {}

  /** Digests are hexadecimal texts of 64 characters. */
  ghost predicate Digests(digest: string -> string) {
    forall x :: IsLine(digest(x), 64)
  }

  ghost predicate AllValid(evidence: seq<Evidence>) {
    forall i :: 0 <= i < |evidence| ==> evidence[i].Valid()
  }

  lemma KindCountsForm(evidence: seq<Evidence>)
    requires 1 <= |evidence| <= 100
    ensures |KindCounts(evidence)| <= 100
    ensures forall i :: 0 <= i < |KindCounts(evidence)| ==>
              && |KindCounts(evidence)[i].0| <= 16 && Clean(KindCounts(evidence)[i].0)
              && IsLine(KindCounts(evidence)[i].0, 32) && KindCounts(evidence)[i].1 <= 100
  {
    hide Ordered;
    hide IsLine;
    hide Clean;
    hide KindCounts;
    hide NoDuplicates;
    var counts := KindCounts(evidence);
    CountsPassChecks(evidence);
    SumBounds(counts);
    forall i | 0 <= i < |counts|
      ensures |counts[i].0| <= 16 && Clean(counts[i].0) && IsLine(counts[i].0, 32) && counts[i].1 <= 100
    {
      var k :| 0 <= k < |evidence| && Kinds(evidence)[k] == counts[i].0;
      KindNameForm(evidence[k].kind);
    }
  }

  lemma SortedValid(evidence: seq<Evidence>)
    requires AllValid(evidence)
    ensures AllValid(SortedById(evidence))
  {
    hide IsLine;
    SortKeeps(IdLe, evidence);
    forall i | 0 <= i < |SortedById(evidence)| ensures SortedById(evidence)[i].Valid() {
      SameElements(SortedById(evidence), evidence, SortedById(evidence)[i]);
    }
  }

  /** Valid evidence always gives a report that passes all of the report's own checks. */
  lemma GeneratedReportIsValid(digest: string -> string, command: Command, evidence: seq<Evidence>)
    requires ValidEvidence(command, evidence) && AllValid(evidence) && Digests(digest)
    ensures Generate(digest, command, evidence).Valid()
  {
    hide Summary;
    hide Guards.ValidSummary;
    hide Ordered;
    hide KindCounts;
    hide NoDuplicates;
    var ordered := SortedById(evidence);
    SortKeeps(IdLe, evidence);
    SortedIdsDistinct(evidence);
    SortedValid(evidence);
    CommandValid(command, evidence);
    hide IsLine;
    hide Clean;
    CountsPassChecks(ordered);
    KindCountsForm(ordered);
    SummaryFits(|ordered|, KindCounts(ordered));
    FixedLines();
  }

  lemma CommandValid(command: Command, evidence: seq<Evidence>)
    requires ValidEvidence(command, evidence) && AllValid(evidence)
    ensures command.Valid()
  {
    assert evidence[0].Valid();
  }

  lemma {:induction false} ContainsNeeds(s: string, needle: string, c: char)
    requires Contains(s, needle) && c in needle
    ensures c in s
  {
    if !(needle <= s) { ContainsNeeds(s[1..], needle, c); }
  }

  /** The generated summary never speaks of a partial collection, so a workflow can always mark it. */
  lemma GeneratedSummaryIsUnmarked(digest: string -> string, command: Command, evidence: seq<Evidence>)
    requires ValidEvidence(command, evidence)
    ensures !Contains(Generate(digest, command, evidence).head.summary, "Partial collection:")
  {
    hide Summary;
    hide Contains;
    hide KindCounts;
    var ordered := SortedById(evidence);
    var summary := Generate(digest, command, evidence).head.summary;
    SortKeeps(IdLe, evidence);
    KindCountsForm(ordered);
    SummaryFits(|ordered|, KindCounts(ordered));
    assert "Partial collection:"[18] == ':';
    if Contains(summary, "Partial collection:") { ContainsNeeds(summary, "Partial collection:", ':'); }
  }

  // ---------------------------------------------------------------- what the generated report says

  lemma MapCons(x: Evidence, s: seq<Evidence>)
    ensures Ids([x] + s) == [x.id] + Ids(s) && Kinds([x] + s) == [KindName(x.kind)] + Kinds(s)
  {}

  lemma {:induction false} InsertMaps(x: Evidence, s: seq<Evidence>)
    ensures multiset(Ids(Insert(IdLe, x, s))) == multiset{x.id} + multiset(Ids(s))
    ensures multiset(Kinds(Insert(IdLe, x, s))) == multiset{KindName(x.kind)} + multiset(Kinds(s))
  {
    hide IdLe;
    if s == [] || IdLe(x, s[0]) {
      assert [x] + s == Insert(IdLe, x, s);
      MapCons(x, s);
    } else {
      assert s == [s[0]] + s[1..];
      MapCons(s[0], s[1..]);
      MapCons(s[0], Insert(IdLe, x, s[1..]));
      InsertMaps(x, s[1..]);
    }
  }

  lemma {:induction false} SortMaps(s: seq<Evidence>)
    ensures multiset(Ids(SortedById(s))) == multiset(Ids(s)) && multiset(Kinds(SortedById(s))) == multiset(Kinds(s))
  {
    if s != [] {
      assert s == [s[0]] + s[1..];
      MapCons(s[0], s[1..]);
      SortMaps(s[1..]);
      InsertMaps(s[0], SortedById(s[1..]));
    }
  }

  /** The generated report cites every item once, in the order of the identifiers, counts every kind, and concludes nothing. */
  lemma GeneratedSays(digest: string -> string, command: Command, evidence: seq<Evidence>)
    requires ValidEvidence(command, evidence)
    ensures var d := Generate(digest, command, evidence);
            && d.command == command && d.head.status.Undetermined? && d.head.confidence == 0.0 && !d.head.hasRootCauseType
            && multiset(d.evidenceIds) == multiset(Ids(evidence)) && Ordered(StringLe, d.evidenceIds)
            && (forall i :: 0 <= i < |d.counts| ==> d.counts[i].1 == multiset(Kinds(evidence))[d.counts[i].0])
            && Sum(d.counts) == |evidence|
  {
    var ordered := SortedById(evidence);
    SortKeeps(IdLe, evidence);
    SortMaps(evidence);
    IdOrder();
    SortOrders(IdLe, evidence);
    CountsPassChecks(ordered);
    hide KindCounts;
    hide Summary;
    forall i, j | 0 <= i < j < |ordered| ensures StringLe(Ids(ordered)[i], Ids(ordered)[j]) {
      assert IdLe(ordered[i], ordered[j]);
    }
  }

  /** Its summary gives the number of items and of each kind. */
  lemma GeneratedSummaryCounts(digest: string -> string, command: Command, evidence: seq<Evidence>, i: nat)
    requires ValidEvidence(command, evidence) && i < |Generate(digest, command, evidence).counts|
    ensures var d := Generate(digest, command, evidence);
            && HEAD + Decimal.Print(|evidence|) + MIDDLE <= d.head.summary
            && Contains(d.head.summary, d.counts[i].0 + "=" + Decimal.Print(d.counts[i].1))
  {
    SortKeeps(IdLe, evidence);
    var counts := KindCounts(SortedById(evidence));
    var texts := CountTexts(counts);
    var part := counts[i].0 + "=" + Decimal.Print(counts[i].1);
    hide KindCounts;
    JoinContains(", ", texts, i);
    ContainsBefore(Join(", ", texts), TAIL, part);
    ContainsAfter(HEAD + Decimal.Print(|evidence|) + MIDDLE, Join(", ", texts) + TAIL, part);
    SummaryForm(|evidence|, counts);
    hide Contains;
    hide Summary;
  }

  lemma SummaryForm(n: nat, counts: Items<string, nat>)
    ensures Summary(n, counts) == (HEAD + Decimal.Print(n) + MIDDLE) + (Join(", ", CountTexts(counts)) + TAIL)
  {}

  lemma SplitOrdered(s: seq<Evidence>, rest: seq<Evidence>, a: Evidence, b: Evidence)
    requires Ordered(IdLe, s + rest) && a in s && b in rest
    ensures IdLe(a, b)
  {
    hide IdLe;
    var i :| 0 <= i < |s| && s[i] == a;
    var j :| 0 <= j < |rest| && rest[j] == b;
    assert IdLe((s + rest)[i], (s + rest)[|s| + j]);
  }

  /** The evidence of a model request: as many items as allowed, and no item left out has a smaller identifier. */
  lemma SelectedAreSmallest(evidence: seq<Evidence>, most: nat, a: Evidence, b: Evidence)
    ensures var s := Selected(evidence, most);
            && |s| == (if most <= |evidence| then most else |evidence|)
            && multiset(s) <= multiset(evidence)
            && (a in s && multiset(s)[b] < multiset(evidence)[b] ==> StringLe(a.id, b.id))
  {
    var ordered := SortedById(evidence);
    var s := Selected(evidence, most);
    SortKeeps(IdLe, evidence);
    IdOrder();
    SortOrders(IdLe, evidence);
    hide SortedById;
    hide IsPreorder;
    if most <= |ordered| {
      var rest := ordered[most..];
      assert ordered == s + rest;
      assert multiset(ordered) == multiset(s) + multiset(rest);
      if a in s && multiset(s)[b] < multiset(evidence)[b] {
        assert b in multiset(rest);
        SplitOrdered(s, rest, a, b);
      }
    }
  }
}
