/**
 * The driver: each target is classified, parsed by the matching parser and
 * searched on every site; the entries are then rendered into one report.
 * Targets and their searches run one after another here.
 */
module Orchestrator {
  import opened Wrappers
  import opened Text
  import opened Classifier
  import opened Dict
  import Nik
  import Phone
  import Dork
  import Report

  /** The text a target's queries are built around: a phone number's normalized form, otherwise the target itself. */
  function DorkSubject(t: string): (s: string)
    ensures Classify(t) != PhoneTarget ==> s == t
    ensures Classify(t) == PhoneTarget ==> s == Phone.ParsePhone(t).normalized
  {
    if Classify(t) == PhoneTarget then Phone.Normalize(t) else t
  }

  const NoteRow := ("note", "format not recognized")

  /** What `process_target` gives for target `t`: a title and summary by kind, and one search result list per site. */
  predicate EntryFor(t: string, e: Report.Entry, table: Nik.RegionTable, currentYear: nat,
                     search: string -> Dork.SearchOutcome)
  {
    && (match Classify(t)
        case NikTarget =>
          e.title == "NIK " + t && e.summary == Nik.NikSummary(Nik.DecodeNik(t, table, currentYear))
        case PhoneTarget =>
          e.title == "Phone " + t && e.summary == Phone.PhoneSummary(Phone.ParsePhone(t))
        case UnknownTarget =>
          e.title == "Unknown " + t && e.summary == [NoteRow])
    && DistinctKeys(e.dork)
    && Keys(e.dork) == Dork.QuerySet(Dork.DorkSites, DorkSubject(t))
    && Dork.ResultsOf(e.dork, search)
  }

  /** `process_target`: a NIK is decoded, a phone number parsed, anything else only searched. */
  method ProcessTarget(t: string, table: Nik.RegionTable, currentYear: nat, search: string -> Dork.SearchOutcome)
    returns (e: Report.Entry)
    ensures EntryFor(t, e, table, currentYear, search)
  {
    if IsNik(t) {
      var parsed := Nik.ParseNik(t, table, currentYear);
      var dork := Dork.DorkTarget(t, Dork.DorkSites, search);
      e := Report.Entry("NIK " + t, Nik.NikSummary(parsed), dork);
    } else if IsPhone(t) {
      var parsed := Phone.ParsePhone(t);
      var dork := Dork.DorkTarget(parsed.normalized, Dork.DorkSites, search);
      e := Report.Entry("Phone " + t, Phone.PhoneSummary(parsed), dork);
    } else {
      var dork := Dork.DorkTarget(t, Dork.DorkSites, search);
      e := Report.Entry("Unknown " + t, [NoteRow], dork);
    }
  }

  /** Every target is processed, and its entry kept in target order. */
  method ProcessAll(targets: seq<string>, table: Nik.RegionTable, currentYear: nat,
                    search: string -> Dork.SearchOutcome)
    returns (entries: seq<Report.Entry>)
    ensures |entries| == |targets|
    ensures forall i :: 0 <= i < |targets| ==> EntryFor(targets[i], entries[i], table, currentYear, search)
  {
    entries := [];
    for i := 0 to |targets|
      invariant |entries| == i
      invariant forall j :: 0 <= j < i ==> EntryFor(targets[j], entries[j], table, currentYear, search)
    {
      var e := ProcessTarget(targets[i], table, currentYear, search);
      entries := entries + [e];
    }
  }

  /**
   * `main`: with no target there is no report; otherwise one entry per
   * target, in target order, rendered into the document.
   */
  method Run(argv: seq<string>, table: Nik.RegionTable, currentYear: nat,
             search: string -> Dork.SearchOutcome, generated: string)
    returns (entries: seq<Report.Entry>, doc: Option<string>)
    ensures |argv| < 2 ==> entries == [] && doc == None
    ensures |argv| >= 2 ==> |entries| == |argv| - 1
    ensures |argv| >= 2 ==> forall i :: 0 <= i < |entries| ==>
      EntryFor(argv[i + 1], entries[i], table, currentYear, search)
    ensures |argv| >= 2 ==>
      doc == Some(Report.Document(generated, Concat(Report.Rendered(Report.ReportParts(entries)))))
  {
    if |argv| < 2 {
      entries, doc := [], None;
    } else {
      var targets := argv[1..];
      entries := ProcessAll(targets, table, currentYear, search);
      forall i | 0 <= i < |entries|
        ensures EntryFor(argv[i + 1], entries[i], table, currentYear, search)
      {
        assert targets[i] == argv[i + 1];
      }
      var body := Report.RenderBody(entries);
      doc := Some(Report.Document(generated, body));
    }
  }

  // ---------------------------------------------------------------------------
  // Properties of the composition

  /**
   * When every search either raises or returns what `google_search_raw`
   * computes from some response, each stored result list is free of
   * duplicates, holds at most 25 URLs, and is shown in full by the report
   * (its 30-link cap never cuts a list).
   */
  lemma EntryLinksBounded(t: string, e: Report.Entry, table: Nik.RegionTable, currentYear: nat,
                          search: string -> Dork.SearchOutcome, fetch: string -> Dork.Response)
    requires EntryFor(t, e, table, currentYear, search)
    requires forall q :: search(q) == Dork.Raised || search(q) == Dork.Returned(Dork.SearchResults(fetch(q)))
    ensures forall k :: 0 <= k < |e.dork| ==>
      && Dork.NoDuplicates(e.dork[k].1)
      && |e.dork[k].1| <= Dork.MaxResults
      && Report.Shown(e.dork[k].1) == e.dork[k].1
  {
    forall k | 0 <= k < |e.dork|
      ensures Dork.NoDuplicates(e.dork[k].1) && |e.dork[k].1| <= Dork.MaxResults
    {
      var q := e.dork[k].0;
      if search(q) != Dork.Raised {
        Dork.SearchResultsMeaning(fetch(q));
      }
    }
  }

  /** Every query of an entry ends with the target's subject in double quotes. */
  lemma QueriesQuoteSubject(t: string, e: Report.Entry, table: Nik.RegionTable, currentYear: nat,
                            search: string -> Dork.SearchOutcome)
    requires EntryFor(t, e, table, currentYear, search)
    ensures forall k :: 0 <= k < |e.dork| ==>
      var q, s := e.dork[k].0, DorkSubject(t);
      |q| >= |s| + 2 && q[|q| - |s| - 2..] == "\"" + s + "\""
  {
    Dork.KeysQuoteTarget(e.dork, Dork.DorkSites, DorkSubject(t));
  }

  /**
   * A phone number is searched in its local form: digits starting with `0`,
   * the same for `+62…` and `0…` spellings of one number.
   */
  lemma PhoneSubjectLocal(t: string)
    requires Classify(t) == PhoneTarget
    ensures var s := DorkSubject(t); s[0] == '0' && AllDigits(s)
    ensures t[..3] == "+62" ==> DorkSubject(t) == Phone.Normalize("0" + t[3..])
  {
    Phone.NormalizedShape(t);
    if t[..3] == "+62" {
      assert t == "+62" + t[3..];
      Phone.InternationalAndLocalAgree(t[3..]);
    }
  }
}
