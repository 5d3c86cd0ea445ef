/** The guardrails a workflow puts on a generated report. */
module ReportGuardrails {
  import opened Outcomes
  import opened FiniteSets
  import opened Text
  import opened Rates
  import opened RcaDomain

  /** The report fields the guardrails touch, and the one their result must agree with. */
  datatype Report = Report(status: ConclusionStatus, summary: string, confidence: real, hasRootCauseType: bool) {

    /** What constructing a report checks of these fields. */
    predicate Valid() {
      && ValidSummary(summary)
      && 0.0 <= confidence <= 1.0
      && (status.Undetermined? || status.NoActionableRootCause? ==> !hasRootCauseType)
    }
  }

  predicate Printable(c: char) { c == '\n' || (c >= ' ' && c != '\U{7F}') }

  predicate ValidSummary(s: string) {
    1 <= |s| <= 4096 && Trimmed(s) && forall i :: 0 <= i < |s| ==> Printable(s[i])
  }

  datatype Caps = Caps(report: real, partial: real) {
    predicate Valid() { 0.0 <= partial <= report <= 1.0 }
  }

  function TypeCoverage(expected: set<EvidenceType>, collected: set<EvidenceType>): real
    requires expected != {}
  {
    Ratio(|expected * collected|, |expected|)
  }

  function ConfidenceCap(caps: Caps, expected: set<EvidenceType>, collected: set<EvidenceType>, failed: seq<string>): real
    requires expected != {}
  {
    var cap := Min(TypeCoverage(expected, collected), caps.report);
    if failed != [] then Min(cap, caps.partial) else cap
  }

  /** `s[:m]`, where a negative m counts from the end. */
  function Slice(s: string, m: int): string {
    if m >= |s| then s
    else if m >= 0 then s[..m]
    else if |s| + m >= 0 then s[..|s| + m]
    else []
  }

  function Marker(failed: seq<string>): string {
    " Partial collection: failed steps=" + Join(",", failed) + "."
  }

  /** The summary, shortened as needed, with the marker at its end. */
  function Marked(summary: string, marker: string): string {
    StripRight(Slice(summary, 4096 - |marker|)) + marker
  }

  function AppendPartialMarker(summary: string, failed: seq<string>): string {
    if failed == [] || Contains(summary, "Partial collection:") then summary
    else Marked(summary, Marker(failed))
  }

  /** The guarded report, or nothing when its construction raises. */
  function Guard(caps: Caps, report: Report, expected: set<EvidenceType>, collected: set<EvidenceType>,
                 failed: seq<string>): Option<Report>
    requires expected != {}
  {
    var guarded := report.(
      status := if report.status.Confirmed? then Undetermined else report.status,
      summary := AppendPartialMarker(report.summary, failed),
      confidence := Min(report.confidence, ConfidenceCap(caps, expected, collected, failed)));
    if guarded.Valid() then Some(guarded) else None
  }

  // ---------------------------------------------------------------- coverage

  /** Coverage is the collected part of the planned types: it lies in [0, 1], and is 1 exactly when every one was collected. */
  lemma FullCoverageExactly(expected: set<EvidenceType>, collected: set<EvidenceType>)
    requires expected != {}
    ensures 0.0 <= TypeCoverage(expected, collected) <= 1.0
    ensures TypeCoverage(expected, collected) == 1.0 <==> expected <= collected
    ensures TypeCoverage(expected, collected) * |expected| as real == |expected * collected| as real
  {
    var both := expected * collected;
    SubsetSize(both, expected);
    RatioInUnit(|both|, |expected|);
    RatioUnit(|expected|);
    if |both| < |expected| {
      RatioBelowOne(|both|, |expected|);
    }
    assert both == expected <==> expected <= collected;
  }

  lemma RatioBelowOne(k: nat, n: nat)
    requires k < n
    ensures Ratio(k, n) < 1.0
  {
    assert k as real / n as real < n as real / n as real;
  }

  // ---------------------------------------------------------------- the failure marker

  predicate PlainText(s: string) {
    forall i :: 0 <= i < |s| ==> Printable(s[i])
  }

  lemma {:induction false} JoinPlain(parts: seq<string>)
    requires forall i :: 0 <= i < |parts| ==> PlainText(parts[i])
    ensures PlainText(Join(",", parts))
  {
    if |parts| > 1 { JoinPlain(parts[1..]); }
  }

  /** The marker is printable text that begins with a blank and ends with a full stop. */
  lemma MarkerForm(failed: seq<string>)
    requires forall i :: 0 <= i < |failed| ==> PlainText(failed[i])
    ensures PlainText(Marker(failed))
    ensures Marker(failed)[0] == ' ' && Marker(failed)[|Marker(failed)| - 1] == '.'
    ensures |Marker(failed)| == 35 + |Join(",", failed)|
  {
    JoinPlain(failed);
    var head := " Partial collection: failed steps=";
    assert |head| == 34 && PlainText(head);
  }

  lemma {:induction false} JoinLength(parts: seq<string>, longest: nat)
    requires forall i :: 0 <= i < |parts| ==> |parts[i]| <= longest
    ensures |Join(",", parts)| <= |parts| * longest + (if |parts| > 0 then |parts| - 1 else 0)
  {
    if |parts| > 1 {
      JoinLength(parts[1..], longest);
      assert |parts| * longest == (|parts| - 1) * longest + longest;
    } else if |parts| == 1 {
      assert 1 * longest == longest;
    }
  }

  /** Up to 31 failed steps, whatever their identifiers, the marker leaves room for some of the summary. */
  lemma FewFailuresFit(failed: seq<string>)
    requires 1 <= |failed| <= 31 && forall i :: 0 <= i < |failed| ==> |failed[i]| <= 128 && PlainText(failed[i])
    ensures |Marker(failed)| <= 4033
  {
    MarkerForm(failed);
    JoinLength(failed, 128);
    assert |failed| * 128 <= 31 * 128;
  }

  lemma {:induction false} JoinLengthExact(parts: seq<string>, each: nat)
    requires parts != [] && forall i :: 0 <= i < |parts| ==> |parts[i]| == each
    ensures |Join(",", parts)| == |parts| * each + |parts| - 1
  {
    if |parts| > 1 {
      JoinLengthExact(parts[1..], each);
      assert |parts| * each == (|parts| - 1) * each + each;
    } else {
      assert 1 * each == each;
    }
  }

  /** 32 failed steps with identifiers of 128 characters no longer fit. */
  lemma ManyFailuresDoNotFit(failed: seq<string>)
    requires |failed| == 32 && forall i :: 0 <= i < |failed| ==> |failed[i]| == 128 && PlainText(failed[i])
    ensures |Marker(failed)| == 4162
  {
    MarkerForm(failed);
    JoinLengthExact(failed, 128);
  }

  lemma SuffixOf(s: string, marker: string)
    ensures EndsWith(s + marker, marker)
  {}

  lemma MarkedSummaryFits(summary: string, marker: string)
    requires ValidSummary(summary) && PlainText(marker) && |marker| <= 4095
    requires marker != [] && marker[|marker| - 1] == '.'
    ensures ValidSummary(Marked(summary, marker))
  {
    var kept := Slice(summary, 4096 - |marker|);
    var r := StripRight(kept);
    assert kept != [] && kept[0] == summary[0];
    StripRightKeepsHead(kept);
    assert forall i :: 0 <= i < |r| ==> r[i] == summary[i];
  }

  lemma {:induction false} StripRightKeepsHead(s: string)
    requires s != [] && !IsSpace(s[0])
    ensures StripRight(s) != [] && StripRight(s)[0] == s[0]
  {
    if IsSpace(s[|s| - 1]) {
      StripRightKeepsHead(s[..|s| - 1]);
    }
  }

  lemma MarkedSummaryFails(summary: string, marker: string)
    requires ValidSummary(summary) && |marker| > 4095 && marker[0] == ' '
    ensures !ValidSummary(Marked(summary, marker))
  {
    var r := StripRight(Slice(summary, 4096 - |marker|));
    if r == [] {
      assert (r + marker)[0] == ' ';
    } else {
      assert |r + marker| > 4096;
    }
  }

  /** The guarded summary is a valid one exactly when nothing is appended or the marker is at most 4095 characters long. */
  lemma GuardedSummaryExactly(summary: string, failed: seq<string>)
    requires ValidSummary(summary) && forall i :: 0 <= i < |failed| ==> PlainText(failed[i])
    ensures ValidSummary(AppendPartialMarker(summary, failed)) <==>
              failed == [] || Contains(summary, "Partial collection:") || |Marker(failed)| <= 4095
    ensures failed != [] && !Contains(summary, "Partial collection:") ==>
              EndsWith(AppendPartialMarker(summary, failed), Marker(failed))
  {
    hide ValidSummary;
    hide PlainText;
    hide Marker;
    hide Contains;
    hide Marked;
    hide EndsWith;
    if failed != [] && !Contains(summary, "Partial collection:") {
      MarkerForm(failed);
      MarkedExactly(summary, Marker(failed));
    }
  }

  lemma MarkedExactly(summary: string, marker: string)
    requires ValidSummary(summary) && PlainText(marker) && marker != [] && marker[0] == ' ' && marker[|marker| - 1] == '.'
    ensures ValidSummary(Marked(summary, marker)) <==> |marker| <= 4095
    ensures EndsWith(Marked(summary, marker), marker)
  {
    SuffixOf(StripRight(Slice(summary, 4096 - |marker|)), marker);
    hide ValidSummary;
    hide EndsWith;
    if |marker| <= 4095 { MarkedSummaryFits(summary, marker); } else { MarkedSummaryFails(summary, marker); }
  }

  // ---------------------------------------------------------------- the guarded report

  lemma CapBounds(caps: Caps, expected: set<EvidenceType>, collected: set<EvidenceType>, failed: seq<string>)
    requires caps.Valid() && expected != {}
    ensures var cap := ConfidenceCap(caps, expected, collected, failed);
            && 0.0 <= cap <= 1.0 && cap <= TypeCoverage(expected, collected) && cap <= caps.report
            && (failed != [] ==> cap <= caps.partial)
  {
    FullCoverageExactly(expected, collected);
  }

  /**
   A guarded report is never confirmed, never more confident than the generated one, the coverage of
   the plan or the caps, and names the failed steps unless the summary already spoke of them.
   */
  lemma GuardBounds(caps: Caps, report: Report, expected: set<EvidenceType>, collected: set<EvidenceType>,
                    failed: seq<string>)
    requires caps.Valid() && report.Valid() && expected != {}
    requires forall i :: 0 <= i < |failed| ==> PlainText(failed[i])
    requires Guard(caps, report, expected, collected, failed).Some?
    ensures var g := Guard(caps, report, expected, collected, failed).value;
            && g.Valid() && g.status == (if report.status.Confirmed? then Undetermined else report.status)
            && g.hasRootCauseType == report.hasRootCauseType
            && 0.0 <= g.confidence <= report.confidence
            && g.confidence <= TypeCoverage(expected, collected) && g.confidence <= caps.report
            && (failed != [] ==> g.confidence <= caps.partial)
            && (failed == [] ==> g.summary == report.summary)
            && (failed != [] && !Contains(report.summary, "Partial collection:") ==> EndsWith(g.summary, Marker(failed)))
  {
    CapBounds(caps, expected, collected, failed);
    GuardedSummaryExactly(report.summary, failed);
  }

  /** The confidences a guarded report may have: the partial cap counts only when some step failed. */
  predicate MayClaim(caps: Caps, report: Report, expected: set<EvidenceType>, collected: set<EvidenceType>, failed: seq<string>, x: real)
    requires expected != {}
  {
    && x <= report.confidence && x <= TypeCoverage(expected, collected) && x <= caps.report
    && (failed != [] ==> x <= caps.partial)
  }

  /** The guarded confidence is the greatest that is allowed. */
  lemma GuardedConfidenceIsGreatest(caps: Caps, report: Report, expected: set<EvidenceType>, collected: set<EvidenceType>,
                                    failed: seq<string>, x: real)
    requires expected != {} && Guard(caps, report, expected, collected, failed).Some?
    ensures var g := Guard(caps, report, expected, collected, failed).value;
            && MayClaim(caps, report, expected, collected, failed, g.confidence)
            && (MayClaim(caps, report, expected, collected, failed, x) ==> x <= g.confidence)
  {
    hide TypeCoverage;
    hide AppendPartialMarker;
    hide ValidSummary;
  }

  /** Before the marker stands the summary as far as it fits, without white space at the end. */
  lemma MarkedKeepsSummary(summary: string, failed: seq<string>)
    requires failed != [] && !Contains(summary, "Partial collection:") && |Marker(failed)| <= 4096
    ensures var r, room := AppendPartialMarker(summary, failed), 4096 - |Marker(failed)|;
            var kept := r[..|r| - |Marker(failed)|];
            && kept <= summary && |kept| <= room && r == kept + Marker(failed)
            && (forall i :: |kept| <= i < |summary| && i < room ==> IsSpace(summary[i]))
  {
    hide Contains;
    hide Marker;
    MarkedKeeps(summary, Marker(failed));
  }

  lemma MarkedKeeps(summary: string, marker: string)
    requires |marker| <= 4096
    ensures var r, room := Marked(summary, marker), 4096 - |marker|;
            var kept := StripRight(Slice(summary, room));
            && r == kept + marker && r[..|r| - |marker|] == kept && kept <= summary && |kept| <= room
            && (forall i :: |kept| <= i < |summary| && i < room ==> IsSpace(summary[i]))
  {
    var slice := Slice(summary, 4096 - |marker|);
    StripRightExactly(slice);
    hide StripRight;
    hide IsSpace;
    assert slice <= summary;
    assert forall i :: 0 <= i < |slice| ==> slice[i] == summary[i];
  }

  /**
   Guarding a valid report succeeds exactly when it does not have to take the word "confirmed" away
   from a report that names a root cause type, and the failure marker fits.
   */
  lemma GuardSucceedsExactly(caps: Caps, report: Report, expected: set<EvidenceType>, collected: set<EvidenceType>,
                             failed: seq<string>)
    requires caps.Valid() && report.Valid() && expected != {}
    requires forall i :: 0 <= i < |failed| ==> PlainText(failed[i])
    ensures Guard(caps, report, expected, collected, failed).Some? <==>
              && !(report.status.Confirmed? && report.hasRootCauseType)
              && (failed == [] || Contains(report.summary, "Partial collection:") || |Marker(failed)| <= 4095)
  {
    hide AppendPartialMarker;
    hide ValidSummary;
    CapBounds(caps, expected, collected, failed);
    GuardedSummaryExactly(report.summary, failed);
  }

  /** It can happen: a confirmed report that names a root cause type cannot be guarded, whatever was collected. */
  lemma ConfirmedRootCauseRaises(caps: Caps, expected: set<EvidenceType>, collected: set<EvidenceType>)
    requires caps.Valid() && expected != {}
    ensures var report := Report(Confirmed, "Cause", 0.5, true);
            report.Valid() && Guard(caps, report, expected, collected, []).None?
  {
    var report := Report(Confirmed, "Cause", 0.5, true);
    assert ValidSummary("Cause");
    GuardSucceedsExactly(caps, report, expected, collected, []);
  }

  /** The step identifier of 128 characters that has a b at place k: different for every k. */
  function LongId(k: nat): (s: string)
    ensures |s| == 128 && forall i :: 0 <= i < 128 ==> s[i] == if i == k then 'b' else 'a'
  {
    seq(128, i => if i == k then 'b' else 'a')
  }

  function LongIds(n: nat): (r: seq<string>)
    ensures |r| == n && forall k :: 0 <= k < n ==> r[k] == LongId(k)
  {
    seq(n, k requires 0 <= k < n => LongId(k))
  }

  lemma LongIdsArePlain(n: nat)
    ensures forall k :: 0 <= k < n ==> |LongIds(n)[k]| == 128 && PlainText(LongIds(n)[k])
  {
    forall k | 0 <= k < n ensures PlainText(LongIds(n)[k]) {
      var s := LongId(k);
      forall i | 0 <= i < |s| ensures Printable(s[i]) {}
    }
  }

  lemma {:induction false} ContainsIsNoLonger(s: string, needle: string)
    requires Contains(s, needle)
    ensures |needle| <= |s|
  {
    if !(needle <= s) { ContainsIsNoLonger(s[1..], needle); }
  }

  /** It can happen: 32 failed steps with long identifiers leave no room for the marker, and guarding raises. */
  lemma LongMarkerRaises(caps: Caps, expected: set<EvidenceType>, collected: set<EvidenceType>)
    requires caps.Valid() && expected != {}
    ensures var report := Report(Undetermined, "Cause", 0.5, false);
            report.Valid() && Guard(caps, report, expected, collected, LongIds(32)).None?
  {
    var report := Report(Undetermined, "Cause", 0.5, false);
    assert ValidSummary("Cause");
    LongIdsArePlain(32);
    ManyFailuresDoNotFit(LongIds(32));
    if Contains("Cause", "Partial collection:") { ContainsIsNoLonger("Cause", "Partial collection:"); }
    GuardSucceedsExactly(caps, report, expected, collected, LongIds(32));
  }

  /** Within the default limit of 20 steps only the confirmed-with-root-cause case can fail. */
  lemma DefaultPlansAlwaysFit(caps: Caps, report: Report, expected: set<EvidenceType>, collected: set<EvidenceType>,
                              failed: seq<string>)
    requires caps.Valid() && report.Valid() && expected != {}
    requires |failed| <= 31 && forall i :: 0 <= i < |failed| ==> |failed[i]| <= 128 && PlainText(failed[i])
    ensures Guard(caps, report, expected, collected, failed).Some? <==>
              !(report.status.Confirmed? && report.hasRootCauseType)
  {
    if failed != [] { FewFailuresFit(failed); }
    GuardSucceedsExactly(caps, report, expected, collected, failed);
  }

  // ---------------------------------------------------------------- marking twice

  lemma MarkerContainsWords(failed: seq<string>)
    ensures Contains(Marker(failed), "Partial collection:")
  {
    hide Join;
    var head, words, tail := " ", "Partial collection:", Join(",", failed) + ".";
    assert " Partial collection: failed steps=" == head + (words + " failed steps=");
    assert Marker(failed) == head + (words + " failed steps=") + tail;
    PrefixContained(words, " failed steps=");
    hide Contains;
    ContainsAfter(head, words + " failed steps=", words);
    ContainsBefore(head + (words + " failed steps="), tail, words);
  }

  /** A marked summary is never marked again, whatever fails later. */
  lemma MarkedOnce(summary: string, failed: seq<string>, more: seq<string>)
    requires failed != []
    ensures AppendPartialMarker(AppendPartialMarker(summary, failed), more) == AppendPartialMarker(summary, failed)
  {
    if !Contains(summary, "Partial collection:") {
      MarkerContainsWords(failed);
      ContainsAfter(StripRight(Slice(summary, 4096 - |Marker(failed)|)), Marker(failed), "Partial collection:");
    }
    hide Marker;
  }
}
