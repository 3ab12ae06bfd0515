/**
 * The portal client: what it sends, what it stores and where it saves.
 *
 * The network is replaced by a `Portal` value that answers each request
 * with the already-parsed content of the page the real portal would send.
 * A run is described by the `Step`s it performs in order: the requests it
 * sends, the frames it fetches and the files it saves (with the directory
 * they are saved in). Each scraping method is proved to perform exactly
 * the steps of a specification function, to leave the working directory as
 * it found it, and to leave behind the directories it entered.
 */
module Scraper {
  import opened Outcomes
  import opened Text
  import opened Sanitize
  import opened DirScope
  import opened Extract

  // ----- requests and steps --------------------------------------------------

  datatype Verb = Get | Post

  /** The portal pages the client requests by a fixed URL. */
  datatype Endpoint = RootPage | LoginCheck | ProfilePage | AdminPage | SemesterList

  /** The fixed URL of each endpoint. */
  function Url(e: Endpoint): string {
    match e
    case RootPage => "https://www.pesuacademy.com/Academy/"
    case LoginCheck => "https://www.pesuacademy.com/Academy/j_spring_security_check"
    case ProfilePage => "https://www.pesuacademy.com/Academy/s/studentProfilePESU"
    case AdminPage => "https://www.pesuacademy.com/Academy/s/studentProfilePESUAdmin"
    case SemesterList => "https://www.pesuacademy.com/Academy/a/studentProfilePESU/getStudentSemestersPESU"
  }

  /** A request: its verb, the endpoint whose URL it goes to and its form fields in the order the source's dict lists them. */
  datatype Request = Request(verb: Verb, endpoint: Endpoint, form: seq<(string, string)>)

  /** A menu selection on the admin controller: fixed controller and menu codes, an action, its argument and the token. */
  function MenuRequest(verb: Verb, actionType: string, argName: string, arg: string, csrf: string): Request {
    Request(verb, AdminPage, [("controllerMode", "6403"), ("actionType", actionType), (argName, arg),
                             ("menuId", "653"), ("_csrf", csrf)])
  }

  /** The request that selects a resource, from fields 2, 5 and 1 of its record. */
  function ResourceRequest(rec: seq<string>): Request
    requires |rec| >= 6
  {
    Request(Get, AdminPage, [("url", "studentProfilePESUAdmin"), ("controllerMode", "6403"), ("actionType", "60"),
                            ("selectedData", rec[2]), ("id", rec[5]), ("unitid", rec[1]), ("menuId", "653")])
  }

  datatype Step =
    | Send(request: Request)                    // a page request
    | Fetch(url: string)                        // a streamed download request
    | Save(dir: Path, name: string, size: nat)  // a file written in `dir`

  // ----- the portal ----------------------------------------------------------

  /** The outcome of a frame's download request: it raised, or it answered with an optional content length. */
  datatype FetchOutcome = Raised | Response(contentLength: Option<nat>)

  /** An `<iframe>` of a resource page: its `src` attribute and what fetching it gives. */
  datatype Frame = Frame(src: Option<string>, fetch: FetchOutcome)

  /** What the login pages hold. */
  datatype LoginPages = LoginPages(
    rootCookies: map<string, string>,  // cookies set by the root page
    rootToken: Option<string>,         // its csrf-token meta content
    infoHeader: Option<string>,        // the profile header after login (absent when refused)
    infoText: Option<string>,          // the SRN line after login
    cookieHeader: Option<string>,      // the Cookie header of the login request that succeeded
    profileToken: Option<string>)      // the csrf-token meta content of the profile page

  /** The portal's answers, each keyed by the parameters of the request. */
  datatype Portal = Portal(
    login: LoginPages,
    semesters: seq<SemesterOption>,                       // the semester list
    courses: string -> Option<seq<SubjectRow>>,           // subject table body, by semester id
    subjectPage: string -> Option<Option<seq<UnitLink>>>, // tab content (if any) and its unit block (if any), by subject id
    unitPage: string -> Option<seq<ResourceRow>>,         // resource table body, by unit id
    resourcePage: (string, string, string) -> seq<Frame>) // iframes, by (selectedData, id, unitid)

  // ----- specification of the download steps ---------------------------------

  /**
   * One pass of the frame loop: the URL is built (KeyError without `src`),
   * a raised fetch skips the frame, a missing content length raises
   * TypeError in `int(None)`, and otherwise the file `{title}_{index}.pdf`
   * is saved in `dir`.
   */
  function FrameStep(dir: Path, title: string, f: Frame, index: nat): Result<seq<Step>> {
    if f.src.None? then Raise(KeyError)
    else
      var url := FrameUrl(f.src.value);
      match f.fetch
      case Raised => Ok([Fetch(url)])
      case Response(None) => Raise(TypeError)
      case Response(Some(n)) => Ok([Fetch(url), Save(dir, FileName(title, index), n)])
  }

  function FrameResults(dir: Path, title: string, frames: seq<Frame>): seq<Result<seq<Step>>> {
    seq(|frames|, k requires 0 <= k < |frames| => FrameStep(dir, title, frames[k], k + 1))
  }

  /** The outcome of frame `k` is its own step, numbered `k + 1`. */
  lemma FrameResultsAt(dir: Path, title: string, frames: seq<Frame>, k: nat)
    requires k < |frames|
    ensures |FrameResults(dir, title, frames)| == |frames|
    ensures FrameResults(dir, title, frames)[k] == FrameStep(dir, title, frames[k], k + 1)
  {
  }

  /** All frames of one resource page, numbered from 1. */
  function FramesSteps(dir: Path, title: string, frames: seq<Frame>): Result<seq<Step>> {
    Gather(FrameResults(dir, title, frames))
  }

  /** A frame fails the loop exactly when it has no `src` or its response has no content length. */
  lemma FrameStepOk(dir: Path, title: string, f: Frame, index: nat)
    ensures FrameStep(dir, title, f, index).Ok? <==> f.src.Some? && f.fetch != Response(None)
    ensures f.src.None? ==> FrameStep(dir, title, f, index) == Raise(KeyError)
    ensures f.src.Some? && f.fetch == Response(None) ==> FrameStep(dir, title, f, index) == Raise(TypeError)
  {
  }

  /** A frame that answers with a content length saves a file in `dir`, under the name for its index, with that size. */
  lemma FrameStepSaves(dir: Path, title: string, f: Frame, index: nat)
    requires FrameStep(dir, title, f, index).Ok? && f.fetch.Response?
    ensures Save(dir, FileName(title, index), f.fetch.contentLength.value) in FrameStep(dir, title, f, index).value
  {
  }

  /** Any file a frame saves is that one: in `dir`, under the name for its index, with the announced size. */
  lemma FrameStepSavesOnly(dir: Path, title: string, f: Frame, index: nat, s: Step)
    requires FrameStep(dir, title, f, index).Ok? && s in FrameStep(dir, title, f, index).value && s.Save?
    ensures s.dir == dir && s.name == FileName(title, index) && f.fetch == Response(Some(s.size))
  {
  }

  /** The frame loop finishes when every frame has a `src` and no response lacks its content length. */
  lemma FramesAllOk(dir: Path, title: string, frames: seq<Frame>)
    requires forall k :: 0 <= k < |frames| ==> frames[k].src.Some? && frames[k].fetch != Response(None)
    ensures FramesSteps(dir, title, frames).Ok?
  {
    var rs := FrameResults(dir, title, frames);
    forall k | 0 <= k < |rs|
      ensures rs[k].Ok?
    {
      FrameResultsAt(dir, title, frames, k);
      FrameStepOk(dir, title, frames[k], k + 1);
    }
  }

  /** A frame that answered with a content length is saved under its own index when the loop finishes. */
  lemma FrameSaved(dir: Path, title: string, frames: seq<Frame>, k: nat)
    requires FramesSteps(dir, title, frames).Ok?
    requires k < |frames| && frames[k].fetch.Response? && frames[k].fetch.contentLength.Some?
    ensures Save(dir, FileName(title, k + 1), frames[k].fetch.contentLength.value) in FramesSteps(dir, title, frames).value
  {
    var rs := FrameResults(dir, title, frames);
    FrameResultsAt(dir, title, frames, k);
    assert rs[k].Ok?;
    FrameStepSaves(dir, title, frames[k], k + 1);
    GatherMembers(rs, Save(dir, FileName(title, k + 1), frames[k].fetch.contentLength.value));
  }

  /**
   * A frame whose request raises is skipped without stopping the others:
   * when no frame lacks its `src` or its content length, every frame that
   * answered is saved under its own index, and nothing else is saved.
   */
  lemma FramesSkipFailedFetch(dir: Path, title: string, frames: seq<Frame>)
    requires forall k :: 0 <= k < |frames| ==> frames[k].src.Some? && frames[k].fetch != Response(None)
    ensures FramesSteps(dir, title, frames).Ok?
    ensures forall k :: 0 <= k < |frames| && frames[k].fetch.Response? ==>
      Save(dir, FileName(title, k + 1), frames[k].fetch.contentLength.value) in FramesSteps(dir, title, frames).value
    ensures forall s :: s in FramesSteps(dir, title, frames).value && s.Save? ==>
      s.dir == dir && exists k :: 0 <= k < |frames| && frames[k].fetch == Response(Some(s.size)) && s.name == FileName(title, k + 1)
  {
    FramesAllOk(dir, title, frames);
    forall k | 0 <= k < |frames| && frames[k].fetch.Response?
      ensures Save(dir, FileName(title, k + 1), frames[k].fetch.contentLength.value) in FramesSteps(dir, title, frames).value
    {
      FrameSaved(dir, title, frames, k);
    }
    FramesSaveInDir(dir, title, frames);
  }

  /**
   * One resource after its rename: the selection request (IndexError when
   * the record has fewer than six fields), then its frames.
   */
  function ResourceSteps(dir: Path, rec: seq<string>, portal: Portal): Result<seq<Step>>
    requires rec != []
  {
    if |rec| < 6 then Raise(IndexError)
    else
      match FramesSteps(dir, rec[0], portal.resourcePage(rec[2], rec[5], rec[1]))
      case Raise(e) => Raise(e)
      case Ok(st) => Ok([Send(ResourceRequest(rec))] + st)
  }

  function ResourceResults(dir: Path, recs: seq<seq<string>>, portal: Portal): seq<Result<seq<Step>>>
    requires forall k :: 0 <= k < |recs| ==> recs[k] != []
  {
    seq(|recs|, k requires 0 <= k < |recs| => ResourceSteps(dir, Renamed(recs[k], k + 1), portal))
  }

  /** The records after the first `n` have been renamed `(1) …`, `(2) …` in place. */
  function RenamedUpTo(recs: seq<seq<string>>, n: nat): (r: seq<seq<string>>)
    requires forall k :: 0 <= k < |recs| ==> recs[k] != []
    ensures |r| == |recs| && forall k :: 0 <= k < |r| ==> r[k] != []
  {
    seq(|recs|, k requires 0 <= k < |recs| => if k < n then Renamed(recs[k], k + 1) else recs[k])
  }

  lemma RenamedUpToStep(recs: seq<seq<string>>, n: nat)
    requires n < |recs| && forall k :: 0 <= k < |recs| ==> recs[k] != []
    ensures RenamedUpTo(recs, n)[n] == recs[n]
    ensures RenamedUpTo(recs, n)[n := Renamed(recs[n], n + 1)] == RenamedUpTo(recs, n + 1)
  {
  }

  /** `scrape_notes` / `scrape_slides` on a list of records, downloading into `dir`. */
  function ResourcesSteps(dir: Path, recs: seq<seq<string>>, portal: Portal): Result<seq<Step>>
    requires forall k :: 0 <= k < |recs| ==> recs[k] != []
  {
    Gather(ResourceResults(dir, recs, portal))
  }

  /**
   * Every file the frames of one page save is saved in the directory they
   * are downloaded into, under the name for the index of a frame that
   * answered with that size.
   */
  lemma FramesSaveInDir(dir: Path, title: string, frames: seq<Frame>)
    requires FramesSteps(dir, title, frames).Ok?
    ensures forall s :: s in FramesSteps(dir, title, frames).value && s.Save? ==>
      s.dir == dir && exists k :: 0 <= k < |frames| && frames[k].fetch == Response(Some(s.size)) && s.name == FileName(title, k + 1)
  {
    var rs := FrameResults(dir, title, frames);
    forall s: Step | s in Gather(rs).value && s.Save?
      ensures s.dir == dir && exists k :: 0 <= k < |frames| && frames[k].fetch == Response(Some(s.size)) && s.name == FileName(title, k + 1)
    {
      GatherMembers(rs, s);
      var k :| 0 <= k < |rs| && s in rs[k].value;
      FrameResultsAt(dir, title, frames, k);
      FrameStepSavesOnly(dir, title, frames[k], k + 1, s);
    }
  }

  /** One resource saves only in the directory it is scraped in. */
  lemma ResourceSaveInDir(dir: Path, rec: seq<string>, portal: Portal)
    requires rec != [] && ResourceSteps(dir, rec, portal).Ok?
    ensures forall s: Step :: s in ResourceSteps(dir, rec, portal).value && s.Save? ==> s.dir == dir
  {
    FramesSaveInDir(dir, rec[0], portal.resourcePage(rec[2], rec[5], rec[1]));
  }

  /** Every file a list of resources saves is saved in the directory it was scraped in. */
  lemma ResourcesSaveInDir(dir: Path, recs: seq<seq<string>>, portal: Portal)
    requires forall k :: 0 <= k < |recs| ==> recs[k] != []
    requires ResourcesSteps(dir, recs, portal).Ok?
    ensures forall s: Step :: s in ResourcesSteps(dir, recs, portal).value && s.Save? ==> s.dir == dir
  {
    var rs := ResourceResults(dir, recs, portal);
    forall s: Step | s in Gather(rs).value && s.Save?
      ensures s.dir == dir
    {
      GatherMembers(rs, s);
      var k :| 0 <= k < |rs| && s in rs[k].value;
      ResourceSaveInDir(dir, Renamed(recs[k], k + 1), portal);
    }
  }

  // ----- the row loops -------------------------------------------------------

  /** Each row's parse, in row order. */
  function Parsed(rows: seq<ResourceRow>, kind: Kind): seq<Option<seq<string>>> {
    Map(rows, row => ParseResourceRow(row, kind))
  }

  /** Entry `i` of the parses is the parse of row `i`. */
  lemma ParsedAt(rows: seq<ResourceRow>, kind: Kind, i: nat)
    requires i < |rows|
    ensures |Parsed(rows, kind)| == |rows| && Parsed(rows, kind)[i] == ParseResourceRow(rows[i], kind)
  {
  }

  /** The records the row loop of `scrape_unit` keeps for one kind of resource, in row order. */
  function Collected(rows: seq<ResourceRow>, kind: Kind): seq<seq<string>> {
    Somes(Parsed(rows, kind))
  }

  /** The rows are processed one after another: collecting two runs of rows concatenates the results. */
  lemma CollectedAppend(a: seq<ResourceRow>, b: seq<ResourceRow>, kind: Kind)
    ensures Collected(a + b, kind) == Collected(a, kind) + Collected(b, kind)
  {
    MapAppend(a, b, row => ParseResourceRow(row, kind));
    SomesAppend(Parsed(a, kind), Parsed(b, kind));
  }

  /** Every kept record is the parse of some row. */
  lemma CollectedSound(rows: seq<ResourceRow>, kind: Kind, rec: seq<string>)
    requires rec in Collected(rows, kind)
    ensures exists i :: 0 <= i < |rows| && ParseResourceRow(rows[i], kind) == Some(rec)
  {
    var ps := Parsed(rows, kind);
    SomesMembers(ps, rec);
    var i :| 0 <= i < |ps| && ps[i] == Some(rec);
    assert ParseResourceRow(rows[i], kind) == Some(rec);
  }

  /** Every row that parses is kept; only rows that fail to parse are dropped. */
  lemma CollectedComplete(rows: seq<ResourceRow>, kind: Kind, i: nat)
    requires i < |rows| && ParseResourceRow(rows[i], kind).Some?
    ensures ParseResourceRow(rows[i], kind).value in Collected(rows, kind)
  {
    var ps := Parsed(rows, kind);
    SomesMembers(ps, ps[i].value);
  }

  /** Every kept record has the title and at least one argument. */
  lemma CollectedShape(rows: seq<ResourceRow>, kind: Kind)
    ensures |Collected(rows, kind)| <= |rows|
    ensures forall k :: 0 <= k < |Collected(rows, kind)| ==> |Collected(rows, kind)[k]| >= 2
  {
    var c := Collected(rows, kind);
    forall k | 0 <= k < |c|
      ensures |c[k]| >= 2
    {
      CollectedSound(rows, kind, c[k]);
    }
  }

  /**
   * The row loop: each row is parsed, and appended when it parses; a row
   * that fails is skipped.
   */
  method CollectResources(rows: seq<ResourceRow>, kind: Kind) returns (found: seq<seq<string>>)
    ensures found == Collected(rows, kind)
    ensures |found| <= |rows| && forall k :: 0 <= k < |found| ==> |found[k]| >= 2
  {
    ghost var ps := Parsed(rows, kind);
    found := [];
    var i := 0;
    while i < |rows|
      invariant 0 <= i <= |rows|
      invariant found == Somes(ps[..i])
    {
      var parsed := ParseResourceRow(rows[i], kind);
      ParsedAt(rows, kind, i);
      SomesNext(ps, i);
      if parsed.Some? {
        found := found + [parsed.value];
      }
      i := i + 1;
    }
    assert ps[..i] == ps;
    CollectedShape(rows, kind);
  }

  /** `scrape_subjects` visits the subjects from index 6 on. */
  function ScrapedIndices(n: nat): seq<nat> {
    seq(if n > 6 then n - 6 else 0, k => 6 + k)
  }

  /** The visited indices are exactly 6 up to the last index, in increasing order: the first six subjects are never scraped. */
  lemma ScrapedIndicesSpec(n: nat)
    ensures forall i :: i in ScrapedIndices(n) <==> 6 <= i < n
    ensures forall k, l :: 0 <= k < l < |ScrapedIndices(n)| ==> ScrapedIndices(n)[k] < ScrapedIndices(n)[l]
  {
    var r := ScrapedIndices(n);
    forall i | 6 <= i < n
      ensures i in r
    {
      assert r[i - 6] == i;
    }
  }

  // ----- specification of unit and subject scraping --------------------------

  /**
   * `scrape_unit`: the unit request; with no resource table, nothing more.
   * Otherwise the notes go to `<unit>/Notes` and the slides to
   * `<unit>/Slides`; an empty sanitised unit name raises FileNotFoundError.
   */
  function UnitSteps(cwd: Path, csrf: string, unit: seq<string>, portal: Portal): Result<seq<Step>>
    requires |unit| >= 2
  {
    var request := Send(MenuRequest(Get, "43", "coursecontentid", unit[1], csrf));
    match portal.unitPage(unit[1])
    case None => Ok([request])
    case Some(rows) =>
      match UnitDownloads(cwd, unit[0], rows, portal)
      case Raise(e) => Raise(e)
      case Ok(st) => Ok([request] + st)
  }

  /**
   * The downloads of one unit's resource table: the notes in
   * `<unit>/Notes`, then the slides in `<unit>/Slides`.
   */
  function UnitDownloads(cwd: Path, unitName: string, rows: seq<ResourceRow>, portal: Portal): Result<seq<Step>> {
    var name := SanitizeName(unitName);
    if name == "" then Raise(FileNotFoundError)
    else
      var notes, slides := Collected(rows, Note), Collected(rows, Slide);
      CollectedShape(rows, Note);
      CollectedShape(rows, Slide);
      match ResourcesSteps(Resolve(cwd, name) + ["Notes"], notes, portal)
      case Raise(e) => Raise(e)
      case Ok(ns) =>
        match ResourcesSteps(Resolve(cwd, name) + ["Slides"], slides, portal)
        case Raise(e) => Raise(e)
        case Ok(ss) => Ok(ns + ss)
  }

  /** A unit's files are saved only in its `Notes` and `Slides` directories. */
  lemma UnitSavesInItsDirs(cwd: Path, csrf: string, unit: seq<string>, portal: Portal)
    requires |unit| >= 2 && UnitSteps(cwd, csrf, unit, portal).Ok?
    ensures forall s :: s in UnitSteps(cwd, csrf, unit, portal).value && s.Save? ==>
      s.dir == Resolve(cwd, SanitizeName(unit[0])) + ["Notes"] || s.dir == Resolve(cwd, SanitizeName(unit[0])) + ["Slides"]
  {
    if portal.unitPage(unit[1]).Some? {
      var rows := portal.unitPage(unit[1]).value;
      var dir := Resolve(cwd, SanitizeName(unit[0]));
      CollectedShape(rows, Note);
      CollectedShape(rows, Slide);
      ResourcesSaveInDir(dir + ["Notes"], Collected(rows, Note), portal);
      ResourcesSaveInDir(dir + ["Slides"], Collected(rows, Slide), portal);
    }
  }

  function UnitResults(dir: Path, csrf: string, units: seq<seq<string>>, portal: Portal): seq<Result<seq<Step>>>
    requires forall k :: 0 <= k < |units| ==> |units[k]| >= 2
  {
    seq(|units|, k requires 0 <= k < |units| => UnitSteps(dir, csrf, units[k], portal))
  }

  /**
   * `scrape_subject`: the record is formatted first (IndexError on fewer
   * than four fields), the subject request carries its last field; with no
   * tab content nothing more happens, and otherwise each unit is scraped
   * inside the directory named after field 1.
   */
  function SubjectSteps(cwd: Path, csrf: string, subject: seq<string>, portal: Portal): Result<seq<Step>> {
    if FormatSubject(subject).Raise? then Raise(IndexError)
    else
      var id := subject[|subject| - 1];
      var request := Send(MenuRequest(Get, "42", "id", id, csrf));
      match portal.subjectPage(id)
      case None => Ok([request])
      case Some(block) =>
        match UnitList(block)
        case Raise(e) => Raise(e)
        case Ok(units) =>
          var name := SanitizeName(subject[1]);
          if name == "" then Raise(FileNotFoundError)
          else
            match Gather(UnitResults(Resolve(cwd, name), csrf, units, portal))
            case Raise(e) => Raise(e)
            case Ok(st) => Ok([request] + st)
  }

  /** The outcome of `scrape_subject` for each subject `scrape_subjects` visits, in order. */
  function SubjectResults(cwd: Path, csrf: string, subjects: seq<seq<string>>, portal: Portal): seq<Result<seq<Step>>> {
    var n := if |subjects| > 6 then |subjects| - 6 else 0;
    seq(n, k requires 0 <= k < n => SubjectSteps(cwd, csrf, subjects[6 + k], portal))
  }

  /** The subjects scraped are those at the visited indices, one outcome each, in the order of the list. */
  lemma SubjectResultsVisit(cwd: Path, csrf: string, subjects: seq<seq<string>>, portal: Portal)
    ensures var rs := SubjectResults(cwd, csrf, subjects, portal); var idx := ScrapedIndices(|subjects|);
      && |rs| == |idx|
      && forall k :: 0 <= k < |rs| ==> idx[k] < |subjects| && rs[k] == SubjectSteps(cwd, csrf, subjects[idx[k]], portal)
  {
    var rs := SubjectResults(cwd, csrf, subjects, portal);
    var idx := ScrapedIndices(|subjects|);
    forall k | 0 <= k < |rs|
      ensures idx[k] < |subjects| && rs[k] == SubjectSteps(cwd, csrf, subjects[idx[k]], portal)
    {
      assert idx[k] == 6 + k;
    }
  }

  // ----- the directories scraping creates ------------------------------------

  /**
   * The directories the downloads of one unit create below `cwd`: none for
   * an empty sanitised unit name; otherwise the unit's directory and its
   * `Notes`, and its `Slides` unless scraping the notes raised first.
   */
  function UnitDownloadDirs(cwd: Path, unitName: string, rows: seq<ResourceRow>, portal: Portal): set<Path> {
    var name := SanitizeName(unitName);
    if name == "" then {}
    else
      var dir := Resolve(cwd, name);
      CollectedShape(rows, Note);
      if ResourcesSteps(dir + ["Notes"], Collected(rows, Note), portal).Raise? then {dir, dir + ["Notes"]}
      else {dir, dir + ["Notes"], dir + ["Slides"]}
  }

  /** The directories `scrape_unit` creates: none without a resource table. */
  function UnitDirs(cwd: Path, unit: seq<string>, portal: Portal): set<Path>
    requires |unit| >= 2
  {
    match portal.unitPage(unit[1])
    case None => {}
    case Some(rows) => UnitDownloadDirs(cwd, unit[0], rows, portal)
  }

  /** The directories the unit loop creates: those of each unit up to and including the first that raises. */
  function UnitsDirs(cwd: Path, csrf: string, units: seq<seq<string>>, portal: Portal): set<Path>
    requires forall k :: 0 <= k < |units| ==> |units[k]| >= 2
    decreases |units|
  {
    if units == [] then {}
    else
      UnitDirs(cwd, units[0], portal)
      + (if UnitSteps(cwd, csrf, units[0], portal).Raise? then {} else UnitsDirs(cwd, csrf, units[1..], portal))
  }

  /**
   * The directories `scrape_subject` creates: the subject's directory and
   * those of its units, once the record is formatted, the tab content and
   * the unit list are read and the name is not empty.
   */
  function SubjectDirs(cwd: Path, csrf: string, subject: seq<string>, portal: Portal): set<Path> {
    if FormatSubject(subject).Raise? then {}
    else
      match portal.subjectPage(subject[|subject| - 1])
      case None => {}
      case Some(block) =>
        match UnitList(block)
        case Raise(_) => {}
        case Ok(units) =>
          var name := SanitizeName(subject[1]);
          if name == "" then {}
          else {Resolve(cwd, name)} + UnitsDirs(Resolve(cwd, name), csrf, units, portal)
  }

  /** The subjects `scrape_subjects` visits: those from index 6 on. */
  function Visited(subjects: seq<seq<string>>): (r: seq<seq<string>>)
    ensures |r| == |ScrapedIndices(|subjects|)|
    ensures forall k :: 0 <= k < |r| ==> r[k] == subjects[ScrapedIndices(|subjects|)[k]]
  {
    ScrapedIndicesSpec(|subjects|);
    if |subjects| > 6 then subjects[6..] else []
  }

  /** The directories the subject loop creates: those of each subject up to and including the first that raises. */
  function SubjectsDirs(cwd: Path, csrf: string, subjects: seq<seq<string>>, portal: Portal): set<Path>
    decreases |subjects|
  {
    if subjects == [] then {}
    else
      SubjectDirs(cwd, csrf, subjects[0], portal)
      + (if SubjectSteps(cwd, csrf, subjects[0], portal).Raise? then {} else SubjectsDirs(cwd, csrf, subjects[1..], portal))
  }

  /** Every file a unit saves lies in a directory that scraping the unit created. */
  lemma UnitDirsHoldSaves(cwd: Path, csrf: string, unit: seq<string>, portal: Portal)
    requires |unit| >= 2 && UnitSteps(cwd, csrf, unit, portal).Ok?
    ensures forall s :: s in UnitSteps(cwd, csrf, unit, portal).value && s.Save? ==> s.dir in UnitDirs(cwd, unit, portal)
  {
    UnitSavesInItsDirs(cwd, csrf, unit, portal);
  }

  /** A unit named `..` has its `Notes` directory made beside the subject's directory, not below it. */
  lemma DotDotUnitDirs(parent: Path, subjectName: string, rows: seq<ResourceRow>, portal: Portal)
    ensures parent + ["Notes"] in UnitDownloadDirs(parent + [subjectName], "..", rows, portal)
  {
    DotNamesKept(parent, subjectName);
  }

  /** A unit named `..` saves its notes and slides beside the subject's directory, not below it. */
  lemma DotDotUnitSaves(parent: Path, subjectName: string, rows: seq<ResourceRow>, portal: Portal)
    requires UnitDownloads(parent + [subjectName], "..", rows, portal).Ok?
    ensures forall s :: s in UnitDownloads(parent + [subjectName], "..", rows, portal).value && s.Save? ==>
      s.dir == parent + ["Notes"] || s.dir == parent + ["Slides"]
  {
    var cwd := parent + [subjectName];
    DotNamesKept(parent, subjectName);
    var notes, slides := Collected(rows, Note), Collected(rows, Slide);
    CollectedShape(rows, Note);
    CollectedShape(rows, Slide);
    var ns := ResourcesSteps(parent + ["Notes"], notes, portal);
    var ss := ResourcesSteps(parent + ["Slides"], slides, portal);
    assert ns.Ok? && ss.Ok? && UnitDownloads(cwd, "..", rows, portal).value == ns.value + ss.value;
    ResourcesSaveInDir(parent + ["Notes"], notes, portal);
    ResourcesSaveInDir(parent + ["Slides"], slides, portal);
  }

  // ----- specification of login and course selection --------------------------

  /**
   * One `name=value` piece of the Cookie header: stripped and split on `=`;
   * the name is the text before the first `=` and the value the text up to
   * the next one. A piece without `=` raises IndexError.
   */
  function CookieEntry(piece: string): Result<(string, string)> {
    NameValue(Strip(piece, IsSpace))
  }

  /** The first two `=`-separated pieces of a stripped cookie entry, or IndexError with fewer than two. */
  function NameValue(t: string): (r: Result<(string, string)>)
    ensures r.Ok? <==> '=' in t
    ensures r.Ok? ==> '=' !in r.value.0 && '=' !in r.value.1
    ensures r.Ok? ==> r.value.0 + "=" + r.value.1 <= t
    ensures r.Ok? ==> var n := |r.value.0| + 1 + |r.value.1|; n == |t| || (n < |t| && t[n] == '=')
  {
    var c := Split(t, '=');
    SplitFirstTwo(t, '=');
    if |c| < 2 then Raise(IndexError) else Ok((c[0], c[1]))
  }

  function CookieEntries(header: string): (r: seq<Result<(string, string)>>)
    ensures |r| == |Split(header, ';')|
  {
    var pieces := Split(header, ';');
    seq(|pieces|, k requires 0 <= k < |pieces| => CookieEntry(pieces[k]))
  }

  /** Entry `k` is the parse of the `k`-th piece of the header. */
  lemma CookieEntriesAt(header: string, k: nat)
    requires k < |Split(header, ';')|
    ensures CookieEntries(header)[k] == CookieEntry(Split(header, ';')[k])
  {
  }

  /** The cookie jar after the login: each header entry in turn overwrites the jar of the root page. */
  function RotatedCookies(jar: map<string, string>, header: string): Result<map<string, string>> {
    match Traverse(CookieEntries(header))
    case Raise(e) => Raise(e)
    case Ok(kvs) => Ok(Insert(jar, kvs))
  }

  /**
   * After the rotation every cookie the login request carried has the value
   * it carried there (the last one, when repeated), and a cookie it did not
   * carry keeps its value from the root page.
   */
  lemma RotatedCookiesSpec(jar: map<string, string>, header: string, name: string)
    requires RotatedCookies(jar, header).Ok?
    ensures var entries := CookieEntries(header); var m := RotatedCookies(jar, header).value;
      && (name in m <==> name in jar || exists j :: 0 <= j < |entries| && entries[j] == Ok((name, entries[j].value.1)))
      && (forall j :: (0 <= j < |entries| && entries[j].value.0 == name
                       && (forall l :: j < l < |entries| ==> entries[l].value.0 != name)) ==> m[name] == entries[j].value.1)
      && (name in jar && (forall j :: 0 <= j < |entries| ==> entries[j].value.0 != name) ==> m[name] == jar[name])
  {
    TraverseInsert(jar, CookieEntries(header), name);
  }

  /** The credentials posted to the login check, with the token of the root page. */
  function LoginRequest(username: string, password: string, csrf: string): Request {
    Request(Post, LoginCheck, [("j_username", username), ("j_password", password), ("_csrf", csrf)])
  }

  /**
   * The session `login` leaves behind, the cookie jar and the token, or the
   * exception it raises: TypeError without the root page's token,
   * AttributeError when the profile header or SRN line is missing (the
   * login was refused), KeyError without a Cookie header, the exception of
   * the cookie rotation, and TypeError without the profile page's token.
   */
  function LoginSession(pages: LoginPages): Result<(map<string, string>, string)> {
    if pages.rootToken.None? then Raise(TypeError)
    else if pages.infoHeader.None? || pages.infoText.None? then Raise(AttributeError)
    else if pages.cookieHeader.None? then Raise(KeyError)
    else SessionAfter(RotatedCookies(pages.rootCookies, pages.cookieHeader.value), pages.profileToken)
  }

  /** The end of `login`: the rotation's exception, TypeError without the profile page's token, or the session. */
  function SessionAfter(rotated: Result<map<string, string>>, profileToken: Option<string>): Result<(map<string, string>, string)> {
    match rotated
    case Raise(e) => Raise(e)
    case Ok(jar) =>
      if profileToken.None? then Raise(TypeError)
      else Ok((jar, DropNonAscii(profileToken.value)))
  }

  /**
   * Login succeeds exactly when every page holds what is read from it and
   * the Cookie header rotates.
   */
  lemma LoginSessionSucceeds(pages: LoginPages)
    ensures LoginSession(pages).Ok? <==>
      && pages.rootToken.Some? && pages.infoHeader.Some? && pages.infoText.Some?
      && pages.cookieHeader.Some? && pages.profileToken.Some?
      && RotatedCookies(pages.rootCookies, pages.cookieHeader.value).Ok?
  {
    if pages.rootToken.Some? && pages.infoHeader.Some? && pages.infoText.Some? && pages.cookieHeader.Some? {
      SessionAfterHolds(RotatedCookies(pages.rootCookies, pages.cookieHeader.value), pages.profileToken);
    }
  }

  /** A successful login holds the rotated jar and the ASCII part of the profile page's token. */
  lemma LoginSessionHolds(pages: LoginPages)
    requires LoginSession(pages).Ok?
    ensures pages.cookieHeader.Some? && pages.profileToken.Some?
    ensures var rotated := RotatedCookies(pages.rootCookies, pages.cookieHeader.value);
      && rotated.Ok?
      && LoginSession(pages).value.0 == rotated.value
      && LoginSession(pages).value.1 == DropNonAscii(pages.profileToken.value)
      && forall c :: c in LoginSession(pages).value.1 ==> IsAscii(c)
  {
    LoginSessionSucceeds(pages);
    var rotated := RotatedCookies(pages.rootCookies, pages.cookieHeader.value);
    assert LoginSession(pages) == SessionAfter(rotated, pages.profileToken);
    SessionAfterHolds(rotated, pages.profileToken);
  }

  /** The end of `login` succeeds exactly when the rotation did and the token is there, and keeps both. */
  lemma SessionAfterHolds(rotated: Result<map<string, string>>, profileToken: Option<string>)
    ensures SessionAfter(rotated, profileToken).Ok? <==> rotated.Ok? && profileToken.Some?
    ensures SessionAfter(rotated, profileToken).Raise? && rotated.Raise? ==>
      SessionAfter(rotated, profileToken).exn == rotated.exn
    ensures SessionAfter(rotated, profileToken).Ok? ==>
      && SessionAfter(rotated, profileToken).value.0 == rotated.value
      && SessionAfter(rotated, profileToken).value.1 == DropNonAscii(profileToken.value)
      && forall c :: c in SessionAfter(rotated, profileToken).value.1 ==> IsAscii(c)
  {
  }

  /** What `my_courses` ends with: an exception, the semester missing from the list, or the subject records. */
  datatype Courses = SemesterNotFound | Listed(subjects: seq<seq<string>>)

  /** The requests `my_courses` sends and how it ends. */
  datatype CoursesRun = CoursesRun(sent: seq<Request>, outcome: Result<Courses>)

  /**
   * `my_courses`: open "My Courses", fetch the semester list, look the
   * semester up, select it and read the subject table; then every record is
   * formatted for display, which raises IndexError on a record with fewer
   * than four fields.
   */
  function MyCoursesRun(csrf: string, semester: int, portal: Portal): CoursesRun {
    var menu := MenuRequest(Post, "38", "id", "1153", csrf);
    var list := Request(Get, SemesterList, []);
    match SemesterIds(portal.semesters)
    case Raise(e) => CoursesRun([menu, list], Raise(e))
    case Ok(ids) =>
      match LookupSemester(ids, semester)
      case None => CoursesRun([menu, list], Ok(SemesterNotFound))
      case Some(id) => CoursesRun([menu, list, MenuRequest(Post, "38", "id", id, csrf)], SelectedCourses(portal.courses(id)))
  }

  /** The end of `my_courses` once the semester is selected: the subject table, each record long enough to format. */
  function SelectedCourses(tbody: Option<seq<SubjectRow>>): Result<Courses> {
    match SubjectTable(tbody)
    case Raise(e) => Raise(e)
    case Ok(subjects) =>
      if exists k :: 0 <= k < |subjects| && |subjects[k]| < 4 then Raise(IndexError)
      else Ok(Listed(subjects))
  }

  /** The subject table `my_courses` stores, when the run gets as far as reading it. */
  function TableRead(semester: int, portal: Portal): Option<seq<seq<string>>> {
    match SemesterIds(portal.semesters)
    case Raise(_) => None
    case Ok(ids) =>
      match LookupSemester(ids, semester)
      case None => None
      case Some(id) => StoredTable(portal.courses(id))
  }

  /** The subject table read from a table body, if it reads. */
  function StoredTable(tbody: Option<seq<SubjectRow>>): Option<seq<seq<string>>> {
    match SubjectTable(tbody)
    case Raise(_) => None
    case Ok(t) => Some(t)
  }

  /**
   * A semester that is not in the portal's list stops the run after the
   * two requests that fetched the list; a listed one is selected with the
   * id the list maps it to.
   */
  lemma MyCoursesSemesterLookup(csrf: string, semester: int, portal: Portal)
    requires SemesterIds(portal.semesters).Ok?
    ensures var ids := SemesterIds(portal.semesters).value; var run := MyCoursesRun(csrf, semester, portal);
      && (!(0 <= semester < 10 && DigitChar(semester) in ids) ==> run.outcome == Ok(SemesterNotFound) && |run.sent| == 2)
      && (0 <= semester < 10 && DigitChar(semester) in ids ==>
            |run.sent| == 3 && run.sent[2] == MenuRequest(Post, "38", "id", ids[DigitChar(semester)], csrf))
  {
  }

  /**
   * Listed subjects are the rows of the table the portal returns for the
   * id that the semester list maps the requested semester to, one record
   * per row, each with at least four fields.
   */
  lemma MyCoursesListed(csrf: string, semester: int, portal: Portal)
    requires MyCoursesRun(csrf, semester, portal).outcome.Ok?
    requires MyCoursesRun(csrf, semester, portal).outcome.value.Listed?
    ensures SemesterIds(portal.semesters).Ok?
    ensures 0 <= semester < 10 && DigitChar(semester) in SemesterIds(portal.semesters).value
    ensures var id := SemesterIds(portal.semesters).value[DigitChar(semester)];
      var subjects := MyCoursesRun(csrf, semester, portal).outcome.value.subjects;
      && portal.courses(id).Some?
      && SubjectTable(portal.courses(id)) == Ok(subjects)
      && |subjects| == |portal.courses(id).value|
      && forall k :: 0 <= k < |subjects| ==> FormatSubject(subjects[k]).Ok?
  {
    var ids := SemesterIds(portal.semesters).value;
    var id := LookupSemester(ids, semester).value;
    assert SubjectTable(portal.courses(id)).Ok?;
  }

  /** A name `cd` enters as it is: a single path component that sanitising leaves alone. */
  predicate PlainName(s: string) {
    s != "" && s != "." && s != ".." && Safe(s) && forall c :: c in s ==> IsAscii(c)
  }

  /** The two fixed sub-directories of a unit are plain names. */
  lemma FixedNamesPlain()
    ensures PlainName("Notes") && PlainName("Slides")
  {
    assert forall c :: c in "Notes" ==> c in "NotesSlid";
    assert forall c :: c in "Slides" ==> c in "NotesSlid";
    assert forall c :: c in "NotesSlid" ==> IsAscii(c) && c !in Unsafe;
  }

  // ----- the client ----------------------------------------------------------

  /** The portal client, with the session state it keeps between calls. */
  class Client {
    const username: string
    const password: string
    var cookies: map<string, string>
    var csrfToken: string
    var subjects: seq<seq<string>>

    constructor (username: string, password: string)
      ensures this.username == username && this.password == password
      ensures cookies == map[] && csrfToken == "" && subjects == []
    {
      this.username := username;
      this.password := password;
      cookies := map[];
      csrfToken := "";
      subjects := [];
    }

    /**
     * The cookie loop of `login`: each `;`-separated piece of the header is
     * split on `=` and its name is set to its value, replacing any earlier
     * cookie of that name.
     */
    method RotateCookies(header: string) returns (res: Result<()>)
      modifies this`cookies
      ensures RotatedCookies(old(cookies), header).Ok? <==> res.Ok?
      ensures res.Ok? ==> cookies == RotatedCookies(old(cookies), header).value
      ensures res.Raise? ==> RotatedCookies(old(cookies), header) == Raise(res.exn)
    {
      var pieces := Split(header, ';');
      ghost var entries := CookieEntries(header);
      ghost var kvs: seq<(string, string)> := [];
      var i := 0;
      while i < |pieces|
        invariant 0 <= i <= |pieces| && |entries| == |pieces|
        invariant Traverse(entries[..i]) == Ok(kvs)
        invariant cookies == Insert(old(cookies), kvs)
      {
        var entry := CookieEntry(pieces[i]);
        CookieEntriesAt(header, i);
        if entry.Raise? {
          TraverseFirstRaise(entries, i);
          return Raise(entry.exn);
        }
        TraverseStep(entries, i, kvs);
        InsertAppend(old(cookies), kvs, entry.value);
        kvs := kvs + [entry.value];
        cookies := cookies[entry.value.0 := entry.value.1];
        i := i + 1;
      }
      assert entries[..i] == entries;
      res := Ok(());
    }

    /**
     * `login`: take the root page's cookies and token, post the
     * credentials, read the profile header (AttributeError when login was
     * refused), rotate the cookies from the login request's Cookie header
     * and take a fresh token from the profile page.
     */
    method Login(pages: LoginPages) returns (sent: seq<Request>, res: Result<()>)
      modifies this`cookies, this`csrfToken
      ensures |sent| >= 1 && sent[0] == Request(Get, RootPage, [])
      ensures pages.rootToken.Some? ==>
        |sent| >= 2 && sent[1] == LoginRequest(username, password, DropNonAscii(pages.rootToken.value))
      ensures LoginSession(pages) == if res.Ok? then Ok((cookies, csrfToken)) else Raise(res.exn)
      ensures res.Ok? ==> |sent| == 3 && sent[2] == Request(Get, ProfilePage, [])
      ensures pages.rootToken.None? ==> |sent| == 1
      ensures pages.rootToken.Some? && (pages.infoHeader.None? || pages.infoText.None? || pages.cookieHeader.None?) ==>
        |sent| == 2
      ensures pages.rootToken.Some? && pages.infoHeader.Some? && pages.infoText.Some? && pages.cookieHeader.Some? ==>
        && 2 <= |sent| <= 3
        && (|sent| == 3 <==> RotatedCookies(pages.rootCookies, pages.cookieHeader.value).Ok?)
        && (|sent| == 3 ==> sent[2] == Request(Get, ProfilePage, []))
      ensures res.Raise? ==>
        csrfToken == if pages.rootToken.None? then old(csrfToken) else DropNonAscii(pages.rootToken.value)
      ensures res.Raise? && (pages.rootToken.None? || pages.infoHeader.None? || pages.infoText.None? || pages.cookieHeader.None?) ==>
        cookies == pages.rootCookies
      ensures res.Raise? && pages.rootToken.Some? && pages.infoHeader.Some? && pages.infoText.Some? && pages.cookieHeader.Some? ==>
        var rotated := RotatedCookies(pages.rootCookies, pages.cookieHeader.value);
        rotated.Ok? ==> cookies == rotated.value
    {
      var root := Request(Get, RootPage, []);
      sent := [root];
      cookies := pages.rootCookies;
      if pages.rootToken.None? {
        return sent, Raise(TypeError);
      }
      csrfToken := DropNonAscii(pages.rootToken.value);
      var credentials := LoginRequest(username, password, csrfToken);
      sent := [root, credentials];
      if pages.infoHeader.None? || pages.infoText.None? {
        return sent, Raise(AttributeError);
      }
      if pages.cookieHeader.None? {
        return sent, Raise(KeyError);
      }
      var fetched: bool;
      fetched, res := FinishLogin(pages.cookieHeader.value, pages.profileToken);
      if fetched {
        sent := [root, credentials, Request(Get, ProfilePage, [])];
      }
    }

    /**
     * The end of `login`: rotate the cookies from the Cookie header, then
     * fetch the profile page and take its token; `fetched` tells whether the
     * profile page was requested.
     */
    method FinishLogin(header: string, profileToken: Option<string>) returns (fetched: bool, res: Result<()>)
      modifies this`cookies, this`csrfToken
      ensures fetched <==> RotatedCookies(old(cookies), header).Ok?
      ensures fetched ==> cookies == RotatedCookies(old(cookies), header).value
      ensures res.Raise? ==> csrfToken == old(csrfToken)
      ensures SessionAfter(RotatedCookies(old(cookies), header), profileToken)
        == if res.Ok? then Ok((cookies, csrfToken)) else Raise(res.exn)
    {
      res := RotateCookies(header);
      if res.Raise? {
        return false, res;
      }
      if profileToken.None? {
        return true, Raise(TypeError);
      }
      csrfToken := DropNonAscii(profileToken.value);
      return true, Ok(());
    }

    /**
     * `my_courses`: sends the requests of `MyCoursesRun`, stores the subject
     * table as soon as it is read, then formats each record for display,
     * which raises IndexError on the first record with fewer than four fields.
     */
    method MyCourses(semester: int, portal: Portal) returns (sent: seq<Request>, res: Result<Courses>)
      modifies this`subjects
      ensures CoursesRun(sent, res) == MyCoursesRun(csrfToken, semester, portal)
      ensures subjects == match TableRead(semester, portal) case Some(t) => t case None => old(subjects)
      ensures res.Ok? && res.value.Listed? ==> subjects == res.value.subjects
    {
      var menu := MenuRequest(Post, "38", "id", "1153", csrfToken);
      var list := Request(Get, SemesterList, []);
      sent := [menu, list];
      var ids := SemesterIds(portal.semesters);
      if ids.Raise? {
        return sent, Raise(ids.exn);
      }
      var found := LookupSemester(ids.value, semester);
      if found.None? {
        return sent, Ok(SemesterNotFound);
      }
      sent := [menu, list, MenuRequest(Post, "38", "id", found.value, csrfToken)];
      res := ListSubjects(portal.courses(found.value));
    }

    /**
     * The end of `my_courses`: the subject table is read and stored, then
     * each record is formatted for display, which raises IndexError on the
     * first record with fewer than four fields.
     */
    method ListSubjects(tbody: Option<seq<SubjectRow>>) returns (res: Result<Courses>)
      modifies this`subjects
      ensures res == SelectedCourses(tbody)
      ensures subjects == match SubjectTable(tbody) case Ok(t) => t case Raise(_) => old(subjects)
    {
      var table := SubjectTable(tbody);
      if table.Raise? {
        return Raise(table.exn);
      }
      var t := table.value;
      subjects := t;
      var views := FormatSubjects(t);
      if views.Raise? {
        return Raise(IndexError);
      }
      res := Ok(Listed(t));
    }

    /**
     * The display loop of `my_courses`: each record in turn is formatted,
     * and the first one with fewer than four fields raises IndexError.
     */
    method FormatSubjects(t: seq<seq<string>>) returns (res: Result<seq<SubjectView>>)
      ensures res.Ok? <==> forall k :: 0 <= k < |t| ==> |t[k]| >= 4
      ensures res.Raise? ==> res.exn == IndexError
      ensures res.Ok? ==> |res.value| == |t| && forall k :: 0 <= k < |t| ==> FormatSubject(t[k]) == Ok(res.value[k])
    {
      var views: seq<SubjectView> := [];
      var i := 0;
      while i < |t|
        invariant 0 <= i <= |t| && |views| == i
        invariant forall k :: 0 <= k < i ==> |t[k]| >= 4 && FormatSubject(t[k]) == Ok(views[k])
      {
        var view := FormatSubject(t[i]);
        if view.Raise? {
          return Raise(IndexError);
        }
        views := views + [view.value];
        i := i + 1;
      }
      res := Ok(views);
    }

    /**
     * `scrape_notes` / `scrape_slides`: each record in turn is renamed in
     * place to `(n) title`, its resource is requested and its frames are
     * downloaded into `dir`. An exception stops the loop after the record
     * it happened in was renamed; `done` is the number of records renamed.
     */
    method ScrapeResources(dir: Path, records: array<seq<string>>, portal: Portal) returns (res: Result<seq<Step>>, done: nat)
      requires forall k :: 0 <= k < records.Length ==> records[k] != []
      modifies records
      ensures res == ResourcesSteps(dir, old(records[..]), portal)
      ensures done <= records.Length && (res.Ok? ==> done == records.Length)
      ensures records[..] == RenamedUpTo(old(records[..]), done)
    {
      ghost var recs := records[..];
      ghost var rs := ResourceResults(dir, recs, portal);
      ghost var xss: seq<seq<Step>> := [];
      var acc: seq<Step> := [];
      done := 0;
      res := Ok([]);
      while done < records.Length
        invariant done <= records.Length
        invariant records[..] == RenamedUpTo(recs, done)
        invariant Traverse(rs[..done]) == Ok(xss) && acc == Flatten(xss)
      {
        RenamedUpToStep(recs, done);
        assert records[done] == recs[done];
        var steps := RenameAndScrape(dir, records, done, portal);
        assert steps == rs[done];
        assert records[..] == RenamedUpTo(recs, done + 1);
        if steps.Raise? {
          TraverseFirstRaise(rs, done);
          res := Raise(steps.exn);
          done := done + 1;
          return;
        }
        GatherExtend(rs, done, xss);
        xss := xss + [steps.value];
        acc := acc + steps.value;
        done := done + 1;
      }
      GatherAll(rs, xss);
      res := Ok(acc);
    }

    /** One pass of the record loop: the record is renamed to `(n) title` in place, then scraped. */
    method RenameAndScrape(dir: Path, records: array<seq<string>>, i: nat, portal: Portal) returns (steps: Result<seq<Step>>)
      requires i < records.Length && records[i] != []
      modifies records
      ensures records[..] == old(records[..])[i := Renamed(old(records[i]), i + 1)]
      ensures steps == ResourceSteps(dir, Renamed(old(records[i]), i + 1), portal)
    {
      var rec := records[i];
      records[i] := [Label(i + 1, rec[0])] + rec[1..];
      steps := ScrapeResource(dir, records[i], portal);
    }

    /** `scrape_notes(records)` on a list the caller does not look at again. */
    method ScrapeList(dir: Path, records: seq<seq<string>>, portal: Portal) returns (res: Result<seq<Step>>)
      requires forall k :: 0 <= k < |records| ==> records[k] != []
      ensures res == ResourcesSteps(dir, records, portal)
    {
      var arr := new seq<string>[|records|](k requires 0 <= k < |records| => records[k]);
      assert arr[..] == records;
      var done;
      res, done := ScrapeResources(dir, arr, portal);
    }

    /** One resource of `scrape_notes`: the selection request, then the frame loop. */
    method ScrapeResource(dir: Path, rec: seq<string>, portal: Portal) returns (res: Result<seq<Step>>)
      requires rec != []
      ensures res == ResourceSteps(dir, rec, portal)
    {
      if |rec| < 6 {
        return Raise(IndexError);
      }
      var frames := portal.resourcePage(rec[2], rec[5], rec[1]);
      var st := FetchFrames(dir, rec[0], frames);
      if st.Raise? {
        return Raise(st.exn);
      }
      res := Ok([Send(ResourceRequest(rec))] + st.value);
    }

    /** One iframe, numbered `index`: build the URL, fetch it and save the file under the sanitised name. */
    method FetchFrame(dir: Path, title: string, frame: Frame, index: nat) returns (steps: Result<seq<Step>>)
      ensures steps == FrameStep(dir, title, frame, index)
    {
      if frame.src.None? {
        return Raise(KeyError);
      }
      var url := FrameUrl(frame.src.value);
      match frame.fetch {
        case Raised =>
          steps := Ok([Fetch(url)]);
        case Response(None) =>
          steps := Raise(TypeError);
        case Response(Some(n)) =>
          var name := ReplaceUnsafe(title + "_" + Decimal(index) + ".pdf");
          steps := Ok([Fetch(url), Save(dir, name, n)]);
      }
    }

    /**
     * The frame loop: for each iframe, numbered from 1, build the URL,
     * fetch it (skipping the frame when the request raises), read the
     * content length and save the file under the sanitised name.
     */
    method FetchFrames(dir: Path, title: string, frames: seq<Frame>) returns (res: Result<seq<Step>>)
      ensures res == FramesSteps(dir, title, frames)
    {
      ghost var rs := FrameResults(dir, title, frames);
      ghost var xss: seq<seq<Step>> := [];
      var acc: seq<Step> := [];
      var i := 0;
      while i < |frames|
        invariant 0 <= i <= |frames|
        invariant Traverse(rs[..i]) == Ok(xss) && acc == Flatten(xss)
      {
        var steps := FetchFrame(dir, title, frames[i], i + 1);
        assert steps == rs[i];
        if steps.Raise? {
          TraverseFirstRaise(rs, i);
          return Raise(steps.exn);
        }
        GatherExtend(rs, i, xss);
        xss := xss + [steps.value];
        acc := acc + steps.value;
        i := i + 1;
      }
      GatherAll(rs, xss);
      res := Ok(acc);
    }

    /**
     * `scrape_unit`: requests the unit, collects its notes and slides, and
     * scrapes each list inside `with cd(unit), cd('Notes')` (then
     * `'Slides'`). The working directory is restored on every path.
     */
    method ScrapeUnit(fs: FileSystem, unit: seq<string>, portal: Portal) returns (res: Result<seq<Step>>)
      requires fs.Valid() && |unit| >= 2
      modifies fs
      ensures fs.Valid() && fs.cwd == old(fs.cwd)
      ensures fs.dirs == old(fs.dirs) + UnitDirs(old(fs.cwd), unit, portal)
      ensures res == UnitSteps(old(fs.cwd), csrfToken, unit, portal)
      ensures res.Ok? && portal.unitPage(unit[1]).Some? ==>
        var dir := Resolve(old(fs.cwd), SanitizeName(unit[0]));
        dir in fs.dirs && dir + ["Notes"] in fs.dirs && dir + ["Slides"] in fs.dirs
    {
      var request := Send(MenuRequest(Get, "43", "coursecontentid", unit[1], csrfToken));
      var tbody := portal.unitPage(unit[1]);
      if tbody.None? {
        res := Ok([request]);
      } else {
        var st := DownloadUnit(fs, unit[0], tbody.value, portal);
        res := if st.Raise? then Raise(st.exn) else Ok([request] + st.value);
      }
    }

    /**
     * The end of `scrape_unit`: the rows are collected into notes and
     * slides, and each list is scraped inside `with cd(unit), cd(kind)`.
     */
    method DownloadUnit(fs: FileSystem, unitName: string, rows: seq<ResourceRow>, portal: Portal) returns (res: Result<seq<Step>>)
      requires fs.Valid()
      modifies fs
      ensures fs.Valid() && fs.cwd == old(fs.cwd)
      ensures fs.dirs == old(fs.dirs) + UnitDownloadDirs(old(fs.cwd), unitName, rows, portal)
      ensures res == UnitDownloads(old(fs.cwd), unitName, rows, portal)
      ensures res.Ok? ==>
        var dir := Resolve(old(fs.cwd), SanitizeName(unitName));
        dir in fs.dirs && dir + ["Notes"] in fs.dirs && dir + ["Slides"] in fs.dirs
    {
      FixedNamesPlain();
      var notes := CollectResources(rows, Note);
      var slides := CollectResources(rows, Slide);
      var ns, nsDir := ScrapeInNested(fs, unitName, "Notes", notes, portal);
      if ns.Raise? {
        return Raise(ns.exn);
      }
      var ss, ssDir := ScrapeInNested(fs, unitName, "Slides", slides, portal);
      if ss.Raise? {
        return Raise(ss.exn);
      }
      res := Ok(ns.value + ss.value);
    }

    /**
     * `with cd(outer), cd(inner): scrape_notes(records)`: the records are
     * scraped in `inner` under `outer`, and both scopes are left in reverse
     * order of entry, also when scraping raised.
     */
    method ScrapeInNested(fs: FileSystem, outer: string, inner: string, records: seq<seq<string>>, portal: Portal)
      returns (res: Result<seq<Step>>, inside: Path)
      requires fs.Valid() && PlainName(inner)
      requires forall k :: 0 <= k < |records| ==> records[k] != []
      modifies fs
      ensures fs.Valid() && fs.cwd == old(fs.cwd)
      ensures fs.dirs == if SanitizeName(outer) == "" then old(fs.dirs)
        else old(fs.dirs) + {Resolve(old(fs.cwd), SanitizeName(outer)), inside}
      ensures SanitizeName(outer) == "" ==> res == Raise(FileNotFoundError)
      ensures SanitizeName(outer) != "" ==>
        && inside == Resolve(old(fs.cwd), SanitizeName(outer)) + [inner]
        && res == ResourcesSteps(inside, records, portal)
        && Resolve(old(fs.cwd), SanitizeName(outer)) in fs.dirs && inside in fs.dirs
    {
      inside := fs.cwd;
      var a := new Cd(fs, outer);
      var ok := a.Enter();
      if !ok {
        return Raise(FileNotFoundError), inside;
      }
      SanitizeKeepsSafeAscii(inner);
      var b := new Cd(fs, inner);
      ok := b.Enter();
      inside := fs.cwd;
      res := ScrapeList(inside, records, portal);
      b.Exit();
      a.Exit();
    }

    /**
     * `scrape_subject`: formats the record, requests the subject, reads the
     * unit list and, when the subject has tab content, scrapes each unit
     * inside `with cd(name)`.
     */
    method ScrapeSubject(fs: FileSystem, subject: seq<string>, portal: Portal) returns (res: Result<seq<Step>>)
      requires fs.Valid()
      modifies fs
      ensures fs.Valid() && fs.cwd == old(fs.cwd)
      ensures fs.dirs == old(fs.dirs) + SubjectDirs(old(fs.cwd), csrfToken, subject, portal)
      ensures res == SubjectSteps(old(fs.cwd), csrfToken, subject, portal)
    {
      var view := FormatSubject(subject);
      if view.Raise? {
        return Raise(IndexError);
      }
      var id := subject[|subject| - 1];
      var request := Send(MenuRequest(Get, "42", "id", id, csrfToken));
      var tab := portal.subjectPage(id);
      if tab.None? {
        return Ok([request]);
      }
      var units := UnitList(tab.value);
      if units.Raise? {
        return Raise(units.exn);
      }
      var scope := new Cd(fs, subject[1]);
      var ok := scope.Enter();
      if !ok {
        return Raise(FileNotFoundError);
      }
      var st := ScrapeUnits(fs, units.value, portal);
      scope.Exit();
      res := if st.Raise? then Raise(st.exn) else Ok([request] + st.value);
    }

    /** The unit loop of `scrape_subject`, run in the subject's directory. */
    method ScrapeUnits(fs: FileSystem, units: seq<seq<string>>, portal: Portal) returns (res: Result<seq<Step>>)
      requires fs.Valid() && forall k :: 0 <= k < |units| ==> |units[k]| >= 2
      modifies fs
      ensures fs.Valid() && fs.cwd == old(fs.cwd)
      ensures fs.dirs == old(fs.dirs) + UnitsDirs(old(fs.cwd), csrfToken, units, portal)
      ensures res == Gather(UnitResults(old(fs.cwd), csrfToken, units, portal))
    {
      ghost var rs := UnitResults(fs.cwd, csrfToken, units, portal);
      ghost var xss: seq<seq<Step>> := [];
      var acc: seq<Step> := [];
      var i := 0;
      while i < |units|
        invariant 0 <= i <= |units|
        invariant fs.Valid() && fs.cwd == old(fs.cwd)
        invariant old(fs.dirs) + UnitsDirs(old(fs.cwd), csrfToken, units, portal)
          == fs.dirs + UnitsDirs(old(fs.cwd), csrfToken, units[i..], portal)
        invariant Traverse(rs[..i]) == Ok(xss) && acc == Flatten(xss)
      {
        assert units[i..][0] == units[i] && units[i..][1..] == units[i + 1..];
        var steps := ScrapeUnit(fs, units[i], portal);
        assert steps == rs[i];
        if steps.Raise? {
          TraverseFirstRaise(rs, i);
          return Raise(steps.exn);
        }
        GatherExtend(rs, i, xss);
        xss := xss + [steps.value];
        acc := acc + steps.value;
        i := i + 1;
      }
      GatherAll(rs, xss);
      res := Ok(acc);
    }

    /**
     * `scrape_subjects`: scrapes the subjects from index 6 to the end of the
     * list, in order, stopping at the first exception.
     */
    method ScrapeSubjects(fs: FileSystem, portal: Portal) returns (res: Result<seq<Step>>)
      requires fs.Valid()
      modifies fs
      ensures fs.Valid() && fs.cwd == old(fs.cwd)
      ensures fs.dirs == old(fs.dirs) + SubjectsDirs(old(fs.cwd), csrfToken, Visited(subjects), portal)
      ensures res == Gather(SubjectResults(old(fs.cwd), csrfToken, subjects, portal))
    {
      ghost var rs := SubjectResults(fs.cwd, csrfToken, subjects, portal);
      ghost var xss: seq<seq<Step>> := [];
      var n := if |subjects| > 6 then |subjects| - 6 else 0;
      ghost var visited := Visited(subjects);
      var acc: seq<Step> := [];
      var j := 0;
      while j < n
        invariant j <= n == |rs| == |visited|
        invariant fs.Valid() && fs.cwd == old(fs.cwd)
        invariant old(fs.dirs) + SubjectsDirs(old(fs.cwd), csrfToken, visited, portal)
          == fs.dirs + SubjectsDirs(old(fs.cwd), csrfToken, visited[j..], portal)
        invariant Traverse(rs[..j]) == Ok(xss) && acc == Flatten(xss)
      {
        assert visited[j..][0] == visited[j] == subjects[6 + j] && visited[j..][1..] == visited[j + 1..];
        var steps := ScrapeSubject(fs, subjects[6 + j], portal);
        assert steps == rs[j];
        if steps.Raise? {
          TraverseFirstRaise(rs, j);
          return Raise(steps.exn);
        }
        GatherExtend(rs, j, xss);
        xss := xss + [steps.value];
        acc := acc + steps.value;
        j := j + 1;
      }
      GatherAll(rs, xss);
      res := Ok(acc);
    }
  }
}
