/**
 * The records the scraper extracts from the portal's pages.
 *
 * BeautifulSoup is not modelled: a page arrives as the strings and optional
 * strings the scraper reads out of it (an absent tag or attribute is
 * `None`). What is modelled is how those strings become semester ids,
 * subject and unit records, resource records, download URLs, display rows
 * and file names.
 */
module Extract {
  import opened Outcomes
  import opened Text
  import opened Sanitize

  // ----- semesters -----------------------------------------------------------

  /** An `<option>` of the semester list: its text and its `value` attribute. */
  datatype SemesterOption = SemesterOption(text: string, value: Option<string>)

  /**
   * One entry of the semester map: the last character of the stripped label,
   * and the value with every backslash removed and its first and last
   * characters dropped (`[1:-1]`, empty when fewer than two remain). An empty
   * label raises IndexError, a missing value KeyError, in that order.
   */
  function SemesterEntry(o: SemesterOption): (r: Result<(char, string)>)
    ensures r.Ok? <==> Strip(o.text, IsSpace) != [] && o.value.Some?
    ensures r.Ok? ==> var caption := Strip(o.text, IsSpace); r.value.0 == caption[|caption| - 1]
    ensures r.Ok? ==> '\\' !in r.value.1
    ensures r.Ok? ==> var w := Remove(o.value.value, '\\');
      r.value.1 == if |w| < 2 then [] else w[1..|w| - 1]
  {
    var caption := Strip(o.text, IsSpace);
    if caption == [] then Raise(IndexError)
    else if o.value.None? then Raise(KeyError)
    else
      var w := Remove(o.value.value, '\\');
      SliceInner(w);
      Ok((caption[|caption| - 1], Slice(w, 1, -1)))
  }

  /** `w[1:-1]` drops the first and last characters, leaving nothing of a string shorter than two. */
  lemma SliceInner(w: string)
    ensures Slice(w, 1, -1) == if |w| < 2 then [] else w[1..|w| - 1]
    ensures forall c :: c in Slice(w, 1, -1) ==> c in w
  {
  }

  function SemesterEntries(options: seq<SemesterOption>): seq<Result<(char, string)>> {
    seq(|options|, k requires 0 <= k < |options| => SemesterEntry(options[k]))
  }

  /** The semester label-to-id dict comprehension over all options. */
  function SemesterIds(options: seq<SemesterOption>): Result<map<char, string>> {
    match Traverse(SemesterEntries(options))
    case Raise(e) => Raise(e)
    case Ok(kvs) => Ok(Insert(map[], kvs))
  }

  /** The semester map is built exactly when every option has a non-empty label and a value. */
  lemma SemesterIdsOk(options: seq<SemesterOption>)
    ensures SemesterIds(options).Ok? <==> forall k :: 0 <= k < |options| ==> SemesterEntry(options[k]).Ok?
  {
    var rs := SemesterEntries(options);
    assert forall k :: 0 <= k < |options| ==> rs[k] == SemesterEntry(options[k]);
  }

  /**
   * The keys of the semester map are exactly the keys of the options'
   * entries (`entries` are the options' entries in order).
   */
  lemma SemesterIdsKeys(options: seq<SemesterOption>, entries: seq<Result<(char, string)>>, key: char)
    requires entries == SemesterEntries(options) && SemesterIds(options).Ok?
    ensures key in SemesterIds(options).value <==> exists j :: 0 <= j < |options| && entries[j] == Ok((key, entries[j].value.1))
  {
    TraverseInsertKeys(map[], entries, key);
  }

  /** For each key the map holds the id of the last option carrying it: a later option overwrites an earlier one. */
  lemma SemesterIdsLastWins(options: seq<SemesterOption>, entries: seq<Result<(char, string)>>, j: nat)
    requires entries == SemesterEntries(options) && SemesterIds(options).Ok? && j < |options|
    requires forall l :: j < l < |options| ==> entries[l].value.0 != entries[j].value.0
    ensures entries[j].value.0 in SemesterIds(options).value
    ensures SemesterIds(options).value[entries[j].value.0] == entries[j].value.1
  {
    TraverseInsertLastWins(map[], entries, j);
  }

  /**
   * `semester_ids[str(semester)]` guarded by the membership test: a
   * semester is found only when its decimal form is a single digit that is
   * a key of the map.
   */
  function LookupSemester(ids: map<char, string>, semester: int): (r: Option<string>)
    ensures r.Some? <==> 0 <= semester < 10 && DigitChar(semester) in ids
    ensures r.Some? ==> r.value == ids[DigitChar(semester)]
  {
    var key := PyStr(semester);
    if |key| == 1 && key[0] in ids then Some(ids[key[0]]) else None
  }

  // ----- subjects and units --------------------------------------------------

  /**
   * `s[s.find('_') + 1:]`: the text after the first underscore, or the whole
   * string when there is none (`find` gives -1).
   */
  function AfterUnderscore(s: string): (r: string)
    ensures '_' !in s ==> r == s
    ensures '_' in s ==> |r| < |s| && s == s[..|s| - |r| - 1] + "_" + r && '_' !in s[..|s| - |r| - 1]
  {
    var i := Find(s, '_');
    Slice(s, i + 1, |s|)
  }

  /** A row of the subject table: the texts of its cells and its `id` attribute. */
  datatype SubjectRow = SubjectRow(cells: seq<string>, id: Option<string>)

  /** A subject record: the stripped ASCII cell texts, then the ASCII id after the first `_`. */
  function SubjectRecord(row: SubjectRow): (r: Result<seq<string>>)
    ensures r.Ok? <==> row.id.Some?
    ensures r.Ok? ==> |r.value| == |row.cells| + 1
    ensures r.Ok? ==> forall k :: 0 <= k < |r.value| ==> forall c :: c in r.value[k] ==> IsAscii(c)
    ensures r.Ok? ==> forall k :: 0 <= k < |row.cells| ==> r.value[k] == DropNonAscii(Strip(row.cells[k], IsSpace))
    ensures r.Ok? ==> r.value[|row.cells|] == DropNonAscii(AfterUnderscore(row.id.value))
    ensures r.Raise? ==> r.exn == KeyError
  {
    if row.id.None? then Raise(KeyError)
    else
      var cells := seq(|row.cells|, k requires 0 <= k < |row.cells| => DropNonAscii(Strip(row.cells[k], IsSpace)));
      Ok(cells + [DropNonAscii(AfterUnderscore(row.id.value))])
  }

  /** The subject list comprehension over the table body (AttributeError when there is none). */
  function SubjectTable(tbody: Option<seq<SubjectRow>>): (r: Result<seq<seq<string>>>)
    ensures tbody.None? ==> r == Raise(AttributeError)
    ensures tbody.Some? ==> (r.Ok? <==> forall k :: 0 <= k < |tbody.value| ==> tbody.value[k].id.Some?)
    ensures tbody.Some? && r.Ok? ==> (|r.value| == |tbody.value|
      && forall k :: 0 <= k < |r.value| ==> SubjectRecord(tbody.value[k]) == Ok(r.value[k]))
  {
    if tbody.None? then Raise(AttributeError)
    else
      var rows := tbody.value;
      var rs := seq(|rows|, k requires 0 <= k < |rows| => SubjectRecord(rows[k]));
      assert forall k :: 0 <= k < |rows| ==> rs[k] == SubjectRecord(rows[k]);
      Traverse(rs)
  }

  /** A unit link: its text and its `href` attribute. */
  datatype UnitLink = UnitLink(text: string, href: Option<string>)

  /** A unit record: the stripped ASCII name, then the href after the first `_`. */
  function UnitRecord(a: UnitLink): (r: Result<seq<string>>)
    ensures r.Ok? <==> a.href.Some?
    ensures r.Ok? ==> |r.value| == 2 && forall c :: c in r.value[0] ==> IsAscii(c)
    ensures r.Ok? ==> r.value[0] == DropNonAscii(Strip(a.text, IsSpace)) && r.value[1] == AfterUnderscore(a.href.value)
    ensures r.Raise? ==> r.exn == KeyError
  {
    if a.href.None? then Raise(KeyError)
    else Ok([DropNonAscii(Strip(a.text, IsSpace)), AfterUnderscore(a.href.value)])
  }

  /** The unit list comprehension over the links of the `courseUnits` block (AttributeError when there is none). */
  function UnitList(courseUnits: Option<seq<UnitLink>>): (r: Result<seq<seq<string>>>)
    ensures courseUnits.None? ==> r == Raise(AttributeError)
    ensures courseUnits.Some? ==> (r.Ok? <==> forall k :: 0 <= k < |courseUnits.value| ==> courseUnits.value[k].href.Some?)
    ensures courseUnits.Some? && r.Ok? ==> (|r.value| == |courseUnits.value|
      && forall k :: 0 <= k < |r.value| ==> UnitRecord(courseUnits.value[k]) == Ok(r.value[k]))
  {
    if courseUnits.None? then Raise(AttributeError)
    else
      var links := courseUnits.value;
      var rs := seq(|links|, k requires 0 <= k < |links| => UnitRecord(links[k]));
      assert forall k :: 0 <= k < |links| ==> rs[k] == UnitRecord(links[k]);
      Traverse(rs)
  }

  // ----- subject display -----------------------------------------------------

  /** The fields `_subject_formatter` returns. */
  datatype SubjectView = SubjectView(name: string, id: string, courseType: string, status: string)

  /** The course type shown for a course tag. */
  function CourseType(tag: string): (r: string)
    ensures r == "Core Course" <==> tag == "CC"
    ensures r == "Elective Course" <==> tag == "EC"
    ensures r == "None" <==> tag != "CC" && tag != "EC"
  {
    if tag == "CC" then "Core Course"
    else if tag == "EC" then "Elective Course"
    else "None"
  }

  /** `_subject_formatter`: fields 1, 0 (in parentheses), 2 and 3 of a record; IndexError on fewer than four. */
  function FormatSubject(s: seq<string>): (r: Result<SubjectView>)
    ensures r.Ok? <==> |s| >= 4
    ensures r.Raise? ==> r.exn == IndexError
  {
    if |s| < 4 then Raise(IndexError)
    else Ok(SubjectView(s[1], "(" + s[0] + ")", CourseType(s[2]), s[3]))
  }

  /**
   * The display keeps a record's name and status, shows its code wrapped in
   * parentheses (so that stripping them gives the code back), and shows the
   * course type from which the tag can be told as CC, EC or neither.
   */
  lemma FormatSubjectFields(s: seq<string>)
    requires |s| >= 4
    ensures var v := FormatSubject(s).value;
      && v.name == s[1] && v.status == s[3]
      && |v.id| == |s[0]| + 2 && v.id[0] == '(' && v.id[|v.id| - 1] == ')' && v.id[1..|v.id| - 1] == s[0]
      && v.courseType == CourseType(s[2])
      && (v.courseType == "Core Course" <==> s[2] == "CC")
      && (v.courseType == "Elective Course" <==> s[2] == "EC")
      && (v.courseType == "None" <==> s[2] != "CC" && s[2] != "EC")
  {
    var v := FormatSubject(s).value;
    assert v.id[1..|v.id| - 1] == s[0];
  }

  // ----- resources -----------------------------------------------------------

  datatype Kind = Note | Slide

  /** The element around a resource icon, with its `onclick` attribute if any. */
  datatype IconLink = IconLink(onclick: Option<string>)

  /** A row of a unit's resource table: its short title and the links around its two icons. */
  datatype ResourceRow = ResourceRow(title: Option<string>, noteLink: Option<IconLink>, slideLink: Option<IconLink>)

  /**
   * `onclick[onclick.find('(') + 1 : -1]`: from just after the first `(`
   * (from the start when there is none) up to but excluding the last
   * character.
   */
  function ArgText(onclick: string): (r: string)
    ensures '(' in onclick ==> var i := Find(onclick, '(');
      r == if i + 1 < |onclick| then onclick[i + 1..|onclick| - 1] else []
    ensures '(' !in onclick ==> r == if onclick == [] then [] else onclick[..|onclick| - 1]
  {
    Slice(onclick, Find(onclick, '(') + 1, -1)
  }

  /** The handler's arguments: the argument text split on `,`, each piece stripped of `'`. */
  function OnclickArgs(onclick: string): (r: seq<string>)
    ensures |r| == Count(ArgText(onclick), ',') + 1
  {
    var pieces := Split(ArgText(onclick), ',');
    seq(|pieces|, k requires 0 <= k < |pieces| => Strip(pieces[k], IsQuote))
  }

  /**
   * Argument `k` is the `k`-th comma-separated piece of the argument text
   * with its quotes stripped; no argument holds a comma, and none starts or
   * ends with a quote.
   */
  lemma OnclickArgsPieces(onclick: string)
    ensures var r, pieces := OnclickArgs(onclick), Split(ArgText(onclick), ',');
      && |r| == |pieces|
      && (forall k :: 0 <= k < |r| ==> r[k] == Strip(pieces[k], IsQuote))
      && (forall k :: 0 <= k < |r| ==> ',' !in r[k])
      && (forall k :: 0 <= k < |r| && r[k] != [] ==> r[k][0] != '\'' && r[k][|r[k]| - 1] != '\'')
  {
    var pieces := Split(ArgText(onclick), ',');
    var r := OnclickArgs(onclick);
    forall k | 0 <= k < |r|
      ensures ',' !in r[k]
    {
      if ',' in r[k] {
        StripWithin(pieces[k], IsQuote, ',');
      }
    }
  }

  /** Each argument written as a quoted string literal. */
  function Quoted(args: seq<string>): seq<string> {
    seq(|args|, k requires 0 <= k < |args| => "'" + args[k] + "'")
  }

  /** The `onclick` handler call `f('a1','a2',...)` that passes `args`. */
  function HandlerCall(f: string, args: seq<string>): string {
    f + "(" + Join(Quoted(args), ',') + ")"
  }

  /** Stripping the quotes of a quoted literal without quotes inside gives the literal back. */
  lemma StripQuoted(a: string)
    requires '\'' !in a
    ensures Strip("'" + a + "'", IsQuote) == a
  {
    var s := "'" + a + "'";
    assert s[0] == '\'' && s[1..] == a + "'";
    assert TrimLeft(s, IsQuote) == TrimLeft(a + "'", IsQuote);
    if a == [] {
      assert TrimLeft(a + "'", IsQuote) == TrimLeft([], IsQuote);
    } else {
      assert a[0] in a && a[|a| - 1] in a;
      assert (a + "'")[0] == a[0];
      assert TrimLeft(a + "'", IsQuote) == a + "'";
      assert (a + "'")[..|a|] == a;
      assert TrimRight(a + "'", IsQuote) == TrimRight(a, IsQuote);
      assert TrimRight(a, IsQuote) == a;
    }
  }

  /**
   * Reading the arguments of a handler call gives back the arguments it
   * passes, provided the handler name has no `(` and no argument holds a
   * comma or a quote.
   */
  lemma OnclickArgsRoundTrip(f: string, args: seq<string>)
    requires '(' !in f && args != []
    requires forall k :: 0 <= k < |args| ==> ',' !in args[k] && '\'' !in args[k]
    ensures OnclickArgs(HandlerCall(f, args)) == args
  {
    var o := HandlerCall(f, args);
    HandlerCallArgText(f, args);
    QuotedSplits(args);
    OnclickArgsPieces(o);
    forall k | 0 <= k < |args|
      ensures OnclickArgs(o)[k] == args[k]
    {
      StripQuoted(args[k]);
    }
  }

  /** The argument text of a handler call is the joined literals between its parentheses. */
  lemma HandlerCallArgText(f: string, args: seq<string>)
    requires '(' !in f
    ensures ArgText(HandlerCall(f, args)) == Join(Quoted(args), ',')
  {
    var j := Join(Quoted(args), ',');
    var o := HandlerCall(f, args);
    assert o == f + ['('] + (j + ")");
    FindAfter(f, '(', j + ")");
    assert o[|f|] == '(';
    assert o[|f| + 1..|o| - 1] == j;
  }

  /** Splitting the joined literals on `,` gives the literals back when no argument holds a comma. */
  lemma QuotedSplits(args: seq<string>)
    requires args != []
    requires forall k :: 0 <= k < |args| ==> ',' !in args[k]
    ensures Split(Join(Quoted(args), ','), ',') == Quoted(args)
  {
    var q := Quoted(args);
    forall k | 0 <= k < |q|
      ensures ',' !in q[k]
    {
      assert q[k] == ['\''] + args[k] + ['\''];
    }
    SplitJoin(q, ',');
  }

  /** The icon link a resource kind is found by. */
  function LinkOf(row: ResourceRow, kind: Kind): Option<IconLink> {
    match kind
    case Note => row.noteLink
    case Slide => row.slideLink
  }

  /**
   * One pass of the row loop: `[name, *args]`, or nothing when the title,
   * the icon or its `onclick` is missing (the bare `except` swallows the
   * error and the row is skipped).
   */
  function ParseResourceRow(row: ResourceRow, kind: Kind): (r: Option<seq<string>>)
    ensures r.Some? <==> row.title.Some? && LinkOf(row, kind).Some? && LinkOf(row, kind).value.onclick.Some?
    ensures r.Some? ==> |r.value| >= 2
  {
    var link := LinkOf(row, kind);
    if row.title.None? || link.None? || link.value.onclick.None? then None
    else Some([DropNonAscii(Strip(row.title.value, IsSpace))] + OnclickArgs(link.value.onclick.value))
  }

  /**
   * A parsed row is the stripped ASCII title followed by the handler's
   * arguments, one more than the commas between its parentheses.
   */
  lemma ParseResourceRowFields(row: ResourceRow, kind: Kind)
    requires ParseResourceRow(row, kind).Some?
    ensures var r := ParseResourceRow(row, kind).value; var onclick := LinkOf(row, kind).value.onclick.value;
      && |r| == 2 + Count(ArgText(onclick), ',')
      && r[0] == DropNonAscii(Strip(row.title.value, IsSpace))
      && r[1..] == OnclickArgs(onclick)
      && forall k :: 1 <= k < |r| ==> ',' !in r[k]
  {
    var r := ParseResourceRow(row, kind).value;
    var args := OnclickArgs(LinkOf(row, kind).value.onclick.value);
    OnclickArgsPieces(LinkOf(row, kind).value.onclick.value);
    assert r[1..] == args;
    assert forall k :: 1 <= k < |r| ==> r[k] == args[k - 1];
  }

  // ----- downloads -----------------------------------------------------------

  const Site: string := "https://www.pesuacademy.com"

  /**
   * The download URL for an iframe `src`: the site prefix and `src`, cut
   * before the first `#`. With no `#`, `find` gives -1 and the slice drops
   * the last character instead.
   */
  function FrameUrl(src: string): string {
    var full := Site + src;
    Slice(full, 0, Find(full, '#'))
  }

  /** The site prefix holds no `#`. */
  lemma SiteHasNoHash()
    ensures '#' !in Site
  {
  }

  /**
   * The site prefix holds no `#`, so the URL is the site and `src` up to
   * its first `#`; without one, the last character of `src` is lost.
   */
  lemma FrameUrlSpec(src: string)
    ensures '#' in src ==> FrameUrl(src) == Site + src[..Find(src, '#')]
    ensures '#' !in src ==> FrameUrl(src) == (Site + src)[..|Site| + |src| - 1]
  {
    SiteHasNoHash();
    CutAtFirst(Site, src, '#');
  }

  /** The renamed title of the `n`-th resource: `(n) name`. */
  function Label(n: nat, name: string): string {
    "(" + Decimal(n) + ") " + name
  }

  /** Reads a label `(n) name` back into its number and name. */
  function ParseLabel(s: string): Option<(nat, string)> {
    var k := Find(s, ')');
    if 1 < k && s[0] == '(' && k + 1 < |s| && s[k + 1] == ' ' && forall c :: c in s[1..k] ==> IsDigit(c)
    then Some((ParseDecimal(s[1..k]), s[k + 2..]))
    else None
  }

  /** A label built from any digit string reads back as that digit string's value and the name. */
  lemma ParseLabelOf(d: string, name: string)
    requires d != [] && forall c :: c in d ==> IsDigit(c)
    ensures ParseLabel("(" + d + ") " + name) == Some((ParseDecimal(d), name))
  {
    var s := "(" + d + ") " + name;
    var head := "(" + d;
    assert forall c :: c in head ==> c == '(' || c in d;
    assert s == head + [')'] + (" " + name);
    FindAfter(head, ')', " " + name);
    var k := |d| + 1;
    assert s[0] == '(' && s[k + 1] == ' ';
    assert s[1..k] == d;
    assert s[k + 2..] == name;
  }

  /** The renamed title gives back the number and the title. */
  lemma LabelRoundTrip(n: nat, name: string)
    ensures ParseLabel(Label(n, name)) == Some((n, name))
  {
    ParseLabelOf(Decimal(n), name);
    DecimalRoundTrip(n);
  }

  /** A resource record after the in-place rename of its first field. */
  function Renamed(rec: seq<string>, n: nat): (r: seq<string>)
    requires rec != []
    ensures |r| == |rec| && r[1..] == rec[1..]
    ensures ParseLabel(r[0]) == Some((n, rec[0]))
  {
    LabelRoundTrip(n, rec[0]);
    [Label(n, rec[0])] + rec[1..]
  }

  /** The file a frame is saved to: `{title}_{index}.pdf` with unsafe characters replaced. */
  function FileName(title: string, index: nat): string {
    Scrub(title + "_" + Decimal(index) + ".pdf")
  }

  /**
   * A frame's file name holds no unsafe character, keeps the length of
   * `{title}_{index}.pdf`, ends in `.pdf`, and is that text itself when the
   * title is already safe.
   */
  lemma FileNameSpec(title: string, index: nat)
    ensures var r := FileName(title, index);
      && Safe(r)
      && |r| == |title| + |Decimal(index)| + 5
      && r[|r| - 4..] == ".pdf"
      && (Safe(title) ==> r == title + "_" + Decimal(index) + ".pdf")
  {
    var d := Decimal(index);
    var tail := "_" + d + ".pdf";
    IndexSuffixSafe(d);
    assert title + "_" + d + ".pdf" == title + tail;
    ScrubAppend(title, tail);
    ScrubSafe(tail);
    if Safe(title) {
      ScrubSafe(title);
    }
  }

  /** The `_{index}.pdf` suffix of a frame's file name is safe and ends in `.pdf`. */
  lemma IndexSuffixSafe(d: string)
    requires forall c :: c in d ==> IsDigit(c)
    ensures Safe("_" + d + ".pdf")
    ensures var t := "_" + d + ".pdf"; |t| >= 4 && t[|t| - 4..] == ".pdf"
  {
    var t := "_" + d + ".pdf";
    assert forall c :: c in t ==> c == '_' || c in d || c in ".pdf";
  }
}
