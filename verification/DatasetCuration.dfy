/** Adding reviewed cases to an anonymous evaluation dataset, one version at a time. */
module DatasetCuration {
  import opened Outcomes
  import opened OrderedDict
  import opened FiniteSets
  import opened Text
  import Decimal
  import Evaluation

  // ---------------------------------------------------------------- documents

  datatype Item = Item(id: string, source: string, summary: string)

  datatype Expected = Expected(rootCause: string, required: seq<string>, forbidden: seq<string>, priority: string)

  datatype Sample = Sample(caseId: string, tenant: string, service: string, summary: string, evidence: seq<Item>, expected: Expected)

  datatype Dataset = Dataset(id: string, privacy: string, version: string, samples: seq<Sample>)

  datatype Candidate = Candidate(schema: int, reviewRequired: bool, caseId: string, run: string, incident: string,
                                 report: string, feedback: string, requiredIds: seq<string>, evidence: seq<Item>,
                                 baseline: string, rootCause: string)

  /** A curated item and the candidate item it stands for. */
  datatype Mapped = Mapped(candidateId: string, item: Item)

  datatype Curated = Curated(caseId: string, tenant: string, service: string, summary: string, evidence: seq<Mapped>, expected: Expected)

  datatype Review = Review(schema: int, caseId: string, feedback: string, approved: bool, privacyReviewed: bool,
                           targetVersion: string, sample: Curated)

  /** Case folding and the detection of sensitive text, which the model does not look into. */
  datatype Words = Words(fold: string -> string, sensitive: string -> bool)

  // ---------------------------------------------------------------- texts

  predicate Alphanumeric(c: char) { 'a' <= c <= 'z' || '0' <= c <= '9' }

  predicate NameWith(s: string, extra: string) {
    1 <= |s| <= 128 && Alphanumeric(s[0]) && forall i :: 0 <= i < |s| ==> Alphanumeric(s[i]) || s[i] in extra
  }

  predicate IsIdentifier(s: string) { NameWith(s, "_-") }

  predicate IsSource(s: string) { NameWith(s, "_.-") }

  predicate Stable(s: string, most: nat) { IsLine(s, most) && forall i :: 0 <= i < |s| ==> !IsSpace(s[i]) }

  predicate Public(words: Words, s: string, most: nat) {
    IsLine(s, most) && !Contains((words.fold)(s), "[redacted") && !words.sensitive(s)
  }

  /** The number n of a version "vn": digits without a leading zero. */
  function VersionNumber(s: string): Option<nat> {
    if |s| >= 2 && s[0] == 'v' && s[1] != '0' && forall i :: 1 <= i < |s| ==> Decimal.IsDigit(s[i]) then
      assert forall i :: 0 <= i < |s[1..]| ==> s[1..][i] == s[i + 1];
      Some(Decimal.Value(s[1..]))
    else None
  }

  function VersionText(n: nat): string { "v" + Decimal.Print(n) }

  // ---------------------------------------------------------------- what is accepted

  function CaseIds(samples: seq<Sample>): (r: seq<string>)
    ensures |r| == |samples| && forall i :: 0 <= i < |r| ==> r[i] == samples[i].caseId
  {
    seq(|samples|, i requires 0 <= i < |samples| => samples[i].caseId)
  }

  predicate ValidDataset(d: Dataset) {
    && IsIdentifier(d.id) && d.privacy == "anonymized" && VersionNumber(d.version).Some?
    && d.samples != [] && (forall i :: 0 <= i < |d.samples| ==> IsIdentifier(d.samples[i].caseId))
    && NoDuplicates(CaseIds(d.samples))
  }

  function ItemIds(items: seq<Item>): (r: seq<string>)
    ensures |r| == |items| && forall i :: 0 <= i < |r| ==> r[i] == items[i].id
  {
    seq(|items|, i requires 0 <= i < |items| => items[i].id)
  }

  function InternalIds(c: Candidate): seq<string> {
    [c.caseId, c.run, c.incident, c.report, c.feedback] + c.requiredIds
  }

  predicate ValidCandidate(c: Candidate) {
    && c.schema == 1 && c.reviewRequired
    && Stable(c.caseId, 128) && Stable(c.run, 128) && Stable(c.incident, 128) && Stable(c.report, 128) && Stable(c.feedback, 128)
    && (forall i :: 0 <= i < |c.requiredIds| ==> Stable(c.requiredIds[i], 128)) && NoDuplicates(c.requiredIds)
    && 1 <= |c.evidence| <= 100
    && (forall i :: 0 <= i < |c.evidence| ==>
          Stable(c.evidence[i].id, 64) && Stable(c.evidence[i].source, 128) && IsLine(c.evidence[i].summary, 4096))
    && NoDuplicates(ItemIds(c.evidence)) && c.requiredIds == ItemIds(c.evidence)
  }

  predicate ValidReview(r: Review, c: Candidate, next: nat) {
    && r.schema == 1 && r.approved && r.privacyReviewed
    && r.caseId == c.caseId && r.feedback == c.feedback && r.targetVersion == VersionText(next)
  }

  predicate MappedItemFits(words: Words, m: Mapped, candidates: seq<Item>) {
    && Stable(m.candidateId, 64) && IsIdentifier(m.item.id) && IsSource(m.item.source) && Public(words, m.item.summary, 1024)
    && exists i :: 0 <= i < |candidates| && candidates[i].id == m.candidateId
         && (words.fold)(m.item.summary) != (words.fold)(candidates[i].summary)
  }

  function CandidateIds(mapped: seq<Mapped>): (r: seq<string>)
    ensures |r| == |mapped| && forall i :: 0 <= i < |r| ==> r[i] == mapped[i].candidateId
  {
    seq(|mapped|, i requires 0 <= i < |mapped| => mapped[i].candidateId)
  }

  function Items(mapped: seq<Mapped>): (r: seq<Item>)
    ensures |r| == |mapped| && forall i :: 0 <= i < |r| ==> r[i] == mapped[i].item
  {
    seq(|mapped|, i requires 0 <= i < |mapped| => mapped[i].item)
  }

  /** The length and the set of mapped identifiers are all that is checked of the mapping. */
  predicate MappingFits(words: Words, mapped: seq<Mapped>, candidates: seq<Item>) {
    && |mapped| == |candidates|
    && (forall i :: 0 <= i < |mapped| ==> MappedItemFits(words, mapped[i], candidates))
    && Elements(CandidateIds(mapped)) == Elements(ItemIds(candidates))
    && NoDuplicates(ItemIds(Items(mapped)))
  }

  predicate ExpectedFits(words: Words, e: Expected, ids: seq<string>) {
    && (forall i :: 0 <= i < |e.required| ==> IsIdentifier(e.required[i]) && e.required[i] in ids)
    && NoDuplicates(e.required) && e.required != []
    && (forall i :: 0 <= i < |e.forbidden| ==> Public(words, e.forbidden[i], 512))
    && NoDuplicates(e.forbidden) && e.forbidden != []
    && IsIdentifier(e.rootCause)
    && (e.priority == "critical" || e.priority == "high" || e.priority == "medium" || e.priority == "low" || e.priority == "none")
  }

  predicate CuratedFits(words: Words, s: Curated, c: Candidate) {
    && IsIdentifier(s.caseId) && IsIdentifier(s.tenant) && IsIdentifier(s.service) && Public(words, s.summary, 1024)
    && (words.fold)(s.summary) != (words.fold)(c.baseline) && (words.fold)(s.summary) != (words.fold)(c.rootCause)
    && MappingFits(words, s.evidence, c.evidence)
    && ExpectedFits(words, s.expected, ItemIds(Items(s.evidence)))
  }

  function SampleOf(s: Curated): Sample {
    Sample(s.caseId, s.tenant, s.service, s.summary, Items(s.evidence), s.expected)
  }

  function ItemTexts(items: seq<Item>): seq<string> {
    if items == [] then [] else [items[0].id, items[0].source, items[0].summary] + ItemTexts(items[1..])
  }

  /** Every text inside a sample. */
  function Texts(s: Sample): seq<string> {
    [s.caseId, s.tenant, s.service, s.summary] + ItemTexts(s.evidence)
    + [s.expected.rootCause] + s.expected.required + s.expected.forbidden + [s.expected.priority]
  }

  predicate Leaks(words: Words, text: string, internal: string) { Contains((words.fold)(text), (words.fold)(internal)) }

  predicate NoLeak(words: Words, s: Sample, c: Candidate) {
    forall i, j :: 0 <= i < |Texts(s)| && 0 <= j < |InternalIds(c)| ==> !Leaks(words, Texts(s)[i], InternalIds(c)[j])
  }

  predicate Curatable(words: Words, d: Dataset, c: Candidate, r: Review) {
    && ValidDataset(d) && ValidCandidate(c) && ValidReview(r, c, VersionNumber(d.version).value + 1)
    && CuratedFits(words, r.sample, c) && NoLeak(words, SampleOf(r.sample), c)
    && r.sample.caseId !in CaseIds(d.samples)
  }

  /** The dataset `curate_dataset` returns, or nothing when it raises. */
  function Curate(words: Words, d: Dataset, c: Candidate, r: Review): Option<Dataset> {
    if !Curatable(words, d, c, r) then None
    else Some(d.(version := VersionText(VersionNumber(d.version).value + 1), samples := d.samples + [SampleOf(r.sample)]))
  }

  // ---------------------------------------------------------------- the loop over the mapping

  method BuildEvidence(words: Words, mapped: seq<Mapped>, candidates: seq<Item>) returns (items: Option<seq<Item>>)
    ensures items == if MappingFits(words, mapped, candidates) then Some(Items(mapped)) else None
  {
    if |mapped| != |candidates| { return None; }
    var mappedIds: seq<string> := [];
    var publicIds: seq<string> := [];
    var result: seq<Item> := [];
    hide MappedItemFits;
    for i := 0 to |mapped|
      invariant forall j :: 0 <= j < i ==> MappedItemFits(words, mapped[j], candidates)
      invariant mappedIds == CandidateIds(mapped)[..i]
      invariant result == Items(mapped)[..i] && publicIds == ItemIds(Items(mapped))[..i]
    {
      if !MappedItemFits(words, mapped[i], candidates) { return None; }
      mappedIds := mappedIds + [mapped[i].candidateId];
      publicIds := publicIds + [mapped[i].item.id];
      result := result + [mapped[i].item];
    }
    assert mappedIds == CandidateIds(mapped) && result == Items(mapped) && publicIds == ItemIds(Items(mapped));
    items := if Elements(mappedIds) == Elements(ItemIds(candidates)) && NoDuplicates(publicIds) then Some(result) else None;
  }

  // ---------------------------------------------------------------- pigeonhole

  /** The check of length and set makes the mapping a bijection: every candidate item is mapped exactly once. */
  lemma MappingIsBijection(words: Words, mapped: seq<Mapped>, candidates: seq<Item>, i: nat)
    requires NoDuplicates(ItemIds(candidates)) && MappingFits(words, mapped, candidates)
    ensures NoDuplicates(CandidateIds(mapped))
    ensures i < |candidates| ==>
              exists j :: 0 <= j < |mapped| && mapped[j].candidateId == candidates[i].id
                && forall k :: 0 <= k < |mapped| && mapped[k].candidateId == candidates[i].id ==> k == j
  {
    hide MappedItemFits;
    ElementsBound(CandidateIds(mapped));
    ElementsBound(ItemIds(candidates));
    if i < |candidates| {
      assert ItemIds(candidates)[i] in Elements(CandidateIds(mapped));
      var j :| 0 <= j < |mapped| && CandidateIds(mapped)[j] == candidates[i].id;
      forall k | 0 <= k < |mapped| && mapped[k].candidateId == candidates[i].id ensures k == j {
        assert CandidateIds(mapped)[k] == CandidateIds(mapped)[j];
      }
    }
  }

  // ---------------------------------------------------------------- versions

  /** Printing and reading a version number are inverse. */
  lemma VersionRoundTrip(n: nat, s: string)
    ensures n >= 1 ==> VersionNumber(VersionText(n)) == Some(n)
    ensures VersionNumber(s).Some? ==> VersionNumber(s).value >= 1 && VersionText(VersionNumber(s).value) == s
  {
    if n >= 1 {
      var text := VersionText(n);
      assert text[1..] == Decimal.Print(n) && text[1] == Decimal.Print(n)[0];
      assert forall i :: 1 <= i < |text| ==> text[i] == Decimal.Print(n)[i - 1];
      Decimal.ValueOfPrint(n);
    }
    if VersionNumber(s).Some? {
      assert forall i :: 0 <= i < |s[1..]| ==> s[1..][i] == s[i + 1];
      Decimal.PrintOfValue(s[1..]);
      assert s == "v" + s[1..];
    }
  }

  // ---------------------------------------------------------------- one curation

  /** A curated dataset is again a valid one, with one sample more and the next version; nothing else changes. */
  lemma CurationKeepsValidity(words: Words, d: Dataset, c: Candidate, r: Review)
    requires Curate(words, d, c, r).Some?
    ensures var e := Curate(words, d, c, r).value;
            && ValidDataset(e)
            && VersionNumber(e.version) == Some(VersionNumber(d.version).value + 1)
            && e.samples == d.samples + [SampleOf(r.sample)] && e.id == d.id && e.privacy == d.privacy
    ensures var s, curated := Curate(words, d, c, r).value.samples[|d.samples|], r.sample;
            && s.caseId == curated.caseId && s.tenant == curated.tenant && s.service == curated.service && s.summary == curated.summary
            && s.expected == curated.expected
            && |s.evidence| == |curated.evidence| && forall i :: 0 <= i < |s.evidence| ==> s.evidence[i] == curated.evidence[i].item
  {
    hide CuratedFits;
    hide NoLeak;
    hide ValidCandidate;
    var e := Curate(words, d, c, r).value;
    FreshIdentifier(words, d, c, r);
    VersionRoundTrip(VersionNumber(d.version).value + 1, d.version);
    assert CaseIds(e.samples) == CaseIds(d.samples) + [r.sample.caseId];
    DistinctSnoc(CaseIds(d.samples), r.sample.caseId);
  }

  lemma FreshIdentifier(words: Words, d: Dataset, c: Candidate, r: Review)
    requires Curatable(words, d, c, r)
    ensures IsIdentifier(r.sample.caseId) && r.sample.caseId !in CaseIds(d.samples)
  {}

  lemma {:induction false} ItemTextsHold(items: seq<Item>, i: nat)
    requires i < |items|
    ensures items[i].id in ItemTexts(items) && items[i].source in ItemTexts(items) && items[i].summary in ItemTexts(items)
  {
    if i > 0 {
      ItemTextsHold(items[1..], i - 1);
    } else {
      var r := ItemTexts(items);
      assert r[0] == items[0].id && r[1] == items[0].source && r[2] == items[0].summary;
    }
  }

  /** No text of a published evidence item contains an identifier of the candidate, in any case. */
  lemma PublishedItemsDoNotLeak(words: Words, d: Dataset, c: Candidate, r: Review, i: nat, internal: string)
    requires Curate(words, d, c, r).Some? && i < |r.sample.evidence| && internal in InternalIds(c)
    ensures var item := Curate(words, d, c, r).value.samples[|d.samples|].evidence[i];
            !Leaks(words, item.id, internal) && !Leaks(words, item.source, internal) && !Leaks(words, item.summary, internal)
  {
    hide Leaks;
    var s := SampleOf(r.sample);
    var item := s.evidence[i];
    ItemTextsHold(s.evidence, i);
    TextsHoldItems(s, item.id);
    TextsHoldItems(s, item.source);
    TextsHoldItems(s, item.summary);
    NoLeakMeans(words, d, c, r, item.id, internal);
    NoLeakMeans(words, d, c, r, item.source, internal);
    NoLeakMeans(words, d, c, r, item.summary, internal);
  }

  lemma TextsHoldItems(s: Sample, text: string)
    requires text in ItemTexts(s.evidence)
    ensures text in Texts(s)
  {}

  lemma NoLeakMeans(words: Words, d: Dataset, c: Candidate, r: Review, text: string, internal: string)
    requires Curatable(words, d, c, r) && text in Texts(SampleOf(r.sample)) && internal in InternalIds(c)
    ensures !Leaks(words, text, internal)
  {
    hide Leaks;
    hide CuratedFits;
    hide Texts;
    hide InternalIds;
    var i :| 0 <= i < |Texts(SampleOf(r.sample))| && Texts(SampleOf(r.sample))[i] == text;
    var j :| 0 <= j < |InternalIds(c)| && InternalIds(c)[j] == internal;
  }

  // ---------------------------------------------------------------- any number of curations

  function CurateAll(words: Words, d: Dataset, steps: seq<(Candidate, Review)>): Option<Dataset> {
    if steps == [] then Some(d)
    else
      var before := CurateAll(words, d, steps[..|steps| - 1]);
      if before.None? then None else Curate(words, before.value, steps[|steps| - 1].0, steps[|steps| - 1].1)
  }

  /**
   After any number n of curations the dataset is valid, so no two of its cases share an identifier,
   the old samples are still its first ones, n samples have been added and the version is n higher.
   */
  lemma {:induction false} ManyCurations(words: Words, d: Dataset, steps: seq<(Candidate, Review)>)
    requires ValidDataset(d) && CurateAll(words, d, steps).Some?
    ensures var e := CurateAll(words, d, steps).value;
            && ValidDataset(e)
            && VersionNumber(e.version) == Some(VersionNumber(d.version).value + |steps|)
            && |e.samples| == |d.samples| + |steps| && d.samples <= e.samples
            && e.id == d.id
  {
    assert VersionNumber(d.version).Some?;
    hide Curate;
    hide ValidDataset;
    hide VersionNumber;
    if steps != [] {
      var init, last := steps[..|steps| - 1], steps[|steps| - 1];
      ManyCurations(words, d, init);
      CurationKeepsValidity(words, CurateAll(words, d, init).value, last.0, last.1);
    }
  }

  // ---------------------------------------------------------------- curated datasets can be evaluated

  function Judged(s: Sample): Evaluation.Sample {
    Evaluation.Sample(Some(s.expected.rootCause), Some(s.expected.priority), s.expected.required, s.expected.forbidden)
  }

  lemma NamesHaveNoSpace(s: string)
    requires IsIdentifier(s)
    ensures Evaluation.IsText(s)
  {
    assert "_-" == ['_', '-'];
    assert s[|s| - 1] in "_-" || Alphanumeric(s[|s| - 1]);
  }

  /** A sample that was added can be evaluated: its expectations pass the checks of the evaluation. */
  lemma CuratedCanBeJudged(words: Words, d: Dataset, c: Candidate, r: Review)
    requires Curate(words, d, c, r).Some?
    ensures var s := Curate(words, d, c, r).value.samples[|d.samples|];
            && Evaluation.IsText(s.caseId) && Evaluation.Judgeable(Judged(s), None)
            && (forall x :: x in s.expected.required ==> x in ItemIds(s.evidence))
  {
    hide MappingFits;
    hide NoLeak;
    hide ValidCandidate;
    hide IsIdentifier;
    hide NoDuplicates;
    var e := r.sample.expected;
    NamesHaveNoSpace(r.sample.caseId);
    forall i | 0 <= i < |e.required| ensures Evaluation.IsText(e.required[i]) {
      NamesHaveNoSpace(e.required[i]);
    }
  }

  // ---------------------------------------------------------------- what a curation rests on

  /**
   A curation rests on a review of this candidate that was approved, also for privacy, and names the next version; the case is new
   to the dataset, and what it requires is among its own evidence.
   */
  lemma CurationIsReviewed(words: Words, d: Dataset, c: Candidate, r: Review, i: nat)
    requires Curate(words, d, c, r).Some?
    ensures c.reviewRequired && r.approved && r.privacyReviewed && r.caseId == c.caseId && r.feedback == c.feedback
    ensures VersionNumber(r.targetVersion) == Some(VersionNumber(d.version).value + 1)
    ensures i < |d.samples| ==> d.samples[i].caseId != r.sample.caseId
    ensures r.sample.expected.required != [] && r.sample.expected.forbidden != []
    ensures forall x :: x in r.sample.expected.required ==> exists j :: 0 <= j < |r.sample.evidence| && r.sample.evidence[j].item.id == x
    ensures c.requiredIds == ItemIds(c.evidence)
  {
    VersionRoundTrip(VersionNumber(d.version).value + 1, d.version);
    CurationFits(words, d, c, r);
    if i < |d.samples| { assert CaseIds(d.samples)[i] == d.samples[i].caseId; }
    hide ValidDataset;
    hide MappingFits;
    hide NoLeak;
    hide VersionNumber;
    hide VersionText;
    var ids := ItemIds(Items(r.sample.evidence));
    forall x | x in r.sample.expected.required
      ensures exists j :: 0 <= j < |r.sample.evidence| && r.sample.evidence[j].item.id == x
    {
      var j :| 0 <= j < |ids| && ids[j] == x;
      assert r.sample.evidence[j].item.id == x;
    }
  }

  lemma CurationFits(words: Words, d: Dataset, c: Candidate, r: Review)
    requires Curate(words, d, c, r).Some?
    ensures r.sample.caseId !in CaseIds(d.samples)
    ensures forall x :: x in r.sample.expected.required ==> x in ItemIds(Items(r.sample.evidence))
  {
    hide MappingFits;
    hide NoLeak;
    hide ValidCandidate;
    hide ValidDataset;
    hide IsIdentifier;
  }

  /** Every curated item is of an item of the candidate, and its summary differs from that item's even when folded. */
  lemma MappedItemsAreRewritten(words: Words, d: Dataset, c: Candidate, r: Review, i: nat)
    requires Curate(words, d, c, r).Some? && i < |r.sample.evidence|
    ensures var m := r.sample.evidence[i];
            exists j :: 0 <= j < |c.evidence| && c.evidence[j].id == m.candidateId
              && (words.fold)(m.item.summary) != (words.fold)(c.evidence[j].summary)
    ensures (words.fold)(r.sample.summary) != (words.fold)(c.baseline) && (words.fold)(r.sample.summary) != (words.fold)(c.rootCause)
  {
    hide NoLeak;
    hide ValidCandidate;
    hide ValidDataset;
    hide ExpectedFits;
    assert MappedItemFits(words, r.sample.evidence[i], c.evidence);
  }
}
