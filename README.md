# PESU Academy scraper — a Dafny model

This project models the core of the PESU Academy scraper, `src/scraper.py`, in Dafny and proves properties of that model. The scraper logs in to the portal, selects "My Courses" for a semester and reads the subject table. For every subject from index 6 on, it walks the units, collects each unit's notes and slides from the resource table, and downloads every PDF frame of every resource whose request succeeds. Each download is saved under a sanitised file name in the `Notes` or `Slides` directory of its unit, which is normally below the subject's directory. Sanitising keeps the names `.` and `..`, so a unit or subject with such a name makes `cd` stay where it is or go up one level (`DotNamesKept`, `DotDotUnitDirs`, `DotDotUnitSaves`).

The model has six modules:

- `Outcomes` models Python's exceptions as a `Result` value (`Ok` or `Raise(exn)`). It also gives the left-to-right evaluation of a list comprehension (`Traverse`, `Gather`), the dict built by repeated assignment (`Insert`) and the list a `try`/`except: pass` loop keeps (`Somes`).
- `Text` models the `str` operations the scraper uses:
  - `encode('ascii', 'ignore')`, `strip`, `strip("'")`, `find`;
  - slicing with negative and out-of-range bounds;
  - `split`, `replace` and `str(int)`.
- `Sanitize` models the character replacement of `cd.__init__` and of the file-name loop.
- `DirScope` models the `cd` context manager. The `FileSystem` class holds the working directory and the set of existing directories. The `Cd` class records the directory to return to.
- `Extract` turns what is read from a page into records:
  - semester ids;
  - subject rows and unit links;
  - resource rows and `onclick` arguments;
  - frame URLs, renamed titles (`(n) title`) and file names;
  - the subject display.
- `Scraper` holds the `Client` class, with the session state `login` and `my_courses` update (`cookies`, `csrfToken`, `subjects`), and the scraping methods. The network is a `Portal` value that answers each request with the already-parsed page. A run is described by the `Step`s it performs, in order:
  - requests sent;
  - frames fetched;
  - files saved, each with the directory it is saved in.

  Every scraping method is proved to end exactly as a specification function says. A run that succeeds is described by all the steps it performs. A run that raises is described by its exception only: the steps it performed before raising are not recorded. It is also proved to restore the working directory and to leave exactly the directories a specification function names added to the file system. Lemmas about those functions state what the scraper promises. Files are saved only in the unit's `Notes` and `Slides` directories. A frame whose request raises is skipped, and every frame that answered is saved under its own index. A record keeps its arguments. A renamed title reads back as its number and title.

These behaviours of the code are modelled as written:

- **File names.** A file is named `{title}_{index}.pdf`. The title is the renamed `(n) title`, and the index counts the frames from 1.
- **Missing content length.** A response without a content length raises TypeError in `int(None)`; the frame is not skipped.
- **Course type.** A type other than CC or EC is displayed as the string `None`.
- **Frame URLs.** When an iframe `src` holds no `#`, `src.find('#')` is -1, so the URL loses its last character (`FrameUrlSpec`).
- **Exceptions.** A failed frame request skips that frame, and a resource row that does not parse is dropped. Any other exception in one subject, unit, resource or frame ends the whole run, because nothing catches it.

## Model

| member | source | states |
|---|---|---|
| Outcomes.Traverse | src/scraper.py:186-189 | a comprehension succeeds iff every element does, and then yields each value in order; otherwise its exception is that of the first failing element, all earlier ones having succeeded |
| Outcomes.TraverseFirstRaise | src/scraper.py:230-232 | the first element that raises, after a successful prefix, decides the exception of the whole comprehension |
| Outcomes.Flatten | src/scraper.py:240-241 | everything any part of a run produced is in the concatenation, and everything in it comes from some part |
| Outcomes.InsertKeys | src/scraper.py:157-158 | a key is in the dict built by successive assignments iff it was there before or some pair assigns it |
| Outcomes.InsertLastWins | src/scraper.py:157-158 | the last pair with a key gives that key's value |
| Outcomes.InsertUntouched | src/scraper.py:110-113 | a key no pair assigns keeps its old value |
| Outcomes.TraverseInsertKeys | src/scraper.py:157-158 | the keys of a dict comprehension over successful entries are the old keys and exactly the keys the entries carry |
| Outcomes.TraverseInsertLastWins | src/scraper.py:157-158 | in a dict comprehension the last entry with a key wins |
| Outcomes.TraverseInsertUntouched | src/scraper.py:110-113 | an existing key no entry carries keeps its value |
| Outcomes.TraverseInsert | src/scraper.py:109-113 | after assigning all entries: key present iff before or carried by an entry; the last carrier gives the value; an uncarried key keeps its value |
| Outcomes.Insert | src/scraper.py:109-113 | a dict after assigning pairs in order; stated by `InsertKeys`, `InsertLastWins` and `InsertUntouched` |
| Outcomes.Somes | src/scraper.py:269-281 | the kept records are never more than the rows |
| Outcomes.SomesMembers | src/scraper.py:269-281 | a value is kept iff some row produced it (rows that raised are dropped) |
| Outcomes.SomesAppend | src/scraper.py:270-281 | the records kept from two runs of rows are those of each run, concatenated |
| Outcomes.Gather | src/scraper.py:239-241 | a loop of passes that each may raise: all outputs concatenated, or the first exception; stated by `GatherMembers` |
| Outcomes.GatherMembers | src/scraper.py:330-357 | everything a finished loop produced comes from one of its passes, and every pass's output is in it |
| Text.DropNonAscii | src/scraper.py:22 | `encode('ascii','ignore')` keeps exactly as many characters as `s` has ASCII ones, all ASCII |
| Text.DropNonAsciiAppend | src/scraper.py:22 | dropping non-ASCII characters works piece by piece, keeping order |
| Text.DropNonAsciiOfAscii | src/scraper.py:22 | an ASCII string is unchanged |
| Text.TrimLeft | src/scraper.py:275 | `lstrip` result is a suffix of `s`, does not start with a dropped character, and only dropped characters were removed |
| Text.TrimRight | src/scraper.py:275 | `rstrip` result is a prefix of `s`, does not end with a dropped character, and only dropped characters were removed |
| Text.Strip | src/scraper.py:101 | `strip` never lengthens and leaves no dropped character at either end |
| Text.StripInfix | src/scraper.py:101 | the stripped string is the slice of `s` from `StripStart` on, everything before it and after it is dropped characters; with the ends `Strip` guarantees, this fixes the result to the part between the first and the last kept character |
| Text.StripCases | src/scraper.py:101 | an all-dropped string strips to nothing, and one with kept characters at both ends is left alone |
| Text.StripWithin | src/scraper.py:275 | every character of a stripped string was in the original |
| Text.Find | src/scraper.py:274 | `find` is -1 iff `c` is absent, and otherwise the index of a `c` with none before it |
| Text.FindAfter | src/scraper.py:188 | after a prefix without `c`, `find` returns the prefix length |
| Text.Clamp | src/scraper.py:157 | a slice bound lands in `0..n`: in-range values are kept, negative ones count from the end, and bounds beyond either end go to `n` or `0` |
| Text.Slice | src/scraper.py:157 | `s[lo:hi]`: the part between the clamped bounds, empty when they cross; its uses are stated by `SliceInner`, `CutAtFirst`, `ArgText` and `AfterUnderscore` |
| Text.CutAtFirst | src/scraper.py:331-332 | `(p+s)[:(p+s).find(c)]` is `p` plus `s` up to its first `c`, or everything but the last character when there is no `c` |
| Text.Split | src/scraper.py:276 | `split` gives one more piece than separators, no piece holds the separator, and joining the pieces gives `s` back |
| Text.SplitJoin | src/scraper.py:276 | splitting a join of separator-free pieces gives the pieces back |
| Text.SplitFirst | src/scraper.py:111 | there are several pieces iff the separator occurs; the first piece is the prefix before the first separator |
| Text.SplitFirstTwo | src/scraper.py:111-113 | `c[1]` exists iff the separator occurs, and then `c[0]`, the separator and `c[1]` begin the string, neither piece holding the separator; they are the whole string with two pieces, and another separator follows with more |
| Text.Replace | src/scraper.py:26 | `replace(x, y)` keeps the length and replaces exactly the `x`s |
| Text.Remove | src/scraper.py:157 | `replace('\\', '')` leaves no `\`, shortens by their count, and changes nothing without one |
| Text.RemoveAppend | src/scraper.py:157 | removing works piece by piece, so the kept characters stay in their order |
| Text.RemoveChar | src/scraper.py:157 | one character is removed iff it is the removed one; with `RemoveAppend` this fixes the result |
| Text.DigitChar | src/scraper.py:311 | a digit value renders as a digit character |
| Text.DigitValue | src/scraper.py:311 | reading a digit character gives a value below 10 that renders back to it |
| Text.Decimal | src/scraper.py:311 | `str(n)` is a non-empty digit string, starts with `0` only for zero, and is one character long iff `n < 10` |
| Text.DecimalRoundTrip | src/scraper.py:311 | `int(str(n)) == n` |
| Text.PyStr | src/scraper.py:162 | `str(semester)` is one character iff `0 <= semester < 10`, and then it is that digit |
| Sanitize.Scrub | src/scraper.py:342-345 | the replacement keeps the length, leaves no unsafe character and changes exactly the unsafe ones to `_` |
| Sanitize.ScrubAppend | src/scraper.py:342-345 | replacement works piece by piece |
| Sanitize.ScrubSafe | src/scraper.py:343-345 | a name without unsafe characters is unchanged |
| Sanitize.ReplaceUnsafe | src/scraper.py:24-26 | the loop over the nine unsafe characters yields `Scrub(s)`: same length, safe, every safe character kept |
| Sanitize.SanitizeName | src/scraper.py:20-26 | the directory name is safe, ASCII, and as long as the name's ASCII part |
| Sanitize.SanitizeChar | src/scraper.py:22-26 | a non-ASCII character vanishes, an unsafe one becomes `_`, any other stays |
| Sanitize.SanitizeAppend | src/scraper.py:22-26 | sanitising works piece by piece |
| Sanitize.SanitizeKeepsSafeAscii | src/scraper.py:22-26 | a safe ASCII name is left as it is |
| Sanitize.SanitizeIdempotent | src/scraper.py:22-26 | sanitising twice equals sanitising once |
| Sanitize.SanitizedIsOneComponent | src/scraper.py:24-26 | a sanitised name holds no `/`, so it is a single path component (which may still be `.` or `..`) |
| DirScope.Resolve | src/scraper.py:30-36 | the directory a name denotes from the working directory, with `.` and `..` resolved |
| DirScope.FileSystem.constructor | src/scraper.py:21 | the starting file system is consistent, works in `start`, and holds exactly the directories on its path |
| DirScope.FileSystem.MakeDirs | src/scraper.py:29-34 | `os.makedirs` fails exactly on the empty name; otherwise the directory exists afterwards, `existed` tells whether it did before, and nothing else changes |
| DirScope.FileSystem.ChangeDir | src/scraper.py:36 | `os.chdir` moves to an existing directory, changing nothing else |
| DirScope.Cd.constructor | src/scraper.py:20-26 | `cd(name)` records the current directory and the sanitised name |
| DirScope.Cd.Enter | src/scraper.py:28-36 | entering fails only for an empty name, changing nothing; otherwise it moves into the (now existing) directory |
| DirScope.Cd.Exit | src/scraper.py:38-39 | leaving returns to the recorded directory, whatever happened inside |
| DirScope.DotNamesKept | src/scraper.py:22-36 | `.` and `..` pass through sanitising unchanged, so `cd('.')` stays in the working directory and `cd('..')` goes up to its parent |
| Extract.SemesterEntry | src/scraper.py:157 | an option's entry exists iff its stripped text is non-empty and it has a value; the key is the text's last character, the id the value without `\` and its first and last characters |
| Extract.SemesterIdsOk | src/scraper.py:157-158 | the semester map is built iff every option yields an entry |
| Extract.SemesterIdsKeys | src/scraper.py:157-158 | its keys are exactly the keys of the options' entries |
| Extract.SemesterIdsLastWins | src/scraper.py:157-158 | a later option with the same key overwrites an earlier one |
| Extract.LookupSemester | src/scraper.py:162-167 | a semester is found iff it is a single digit that keys the map, and then its id is the mapped one |
| Extract.AfterUnderscore | src/scraper.py:188 | `s[s.find('_')+1:]` is all of `s` without `_`, else the text after the first `_` |
| Extract.SemesterIds | src/scraper.py:157-158 | the semester dict comprehension: the entries of all options assigned in order, or the first option's exception; stated by `SemesterIdsOk`, `SemesterIdsKeys` and `SemesterIdsLastWins` |
| Extract.SubjectRecord | src/scraper.py:186-188 | a record exists iff the row has an `id` (KeyError otherwise); field `k` is cell `k` stripped and made ASCII, and the last field is the ASCII text after the id's first `_` |
| Extract.SubjectTable | src/scraper.py:186-189 | no table body raises AttributeError; otherwise the table reads iff every row has an `id`, one record per row in order |
| Extract.UnitRecord | src/scraper.py:230-231 | a unit record exists iff the link has an `href` (KeyError otherwise); it is the stripped ASCII link text and the `href` after its first `_` |
| Extract.UnitList | src/scraper.py:230-232 | no `courseUnits` block raises AttributeError; otherwise the list reads iff every link has an `href`, one record per link in order |
| Extract.CourseType | src/scraper.py:414-416 | "Core Course" iff CC, "Elective Course" iff EC, "None" otherwise |
| Extract.FormatSubject | src/scraper.py:409-418 | formatting succeeds iff the record has four fields, and otherwise raises IndexError |
| Extract.FormatSubjectFields | src/scraper.py:411-417 | the view keeps name and status, wraps the code in parentheses, and shows `CourseType` of the tag: "Core Course" iff CC, "Elective Course" iff EC, "None" otherwise |
| Extract.ArgText | src/scraper.py:274-276 | the argument text runs from after the first `(` (from the start without one) to before the last character |
| Extract.OnclickArgs | src/scraper.py:275-276 | there is one argument more than the commas in the argument text |
| Extract.OnclickArgsPieces | src/scraper.py:275-276 | argument `k` is the `k`-th comma-separated piece of the argument text stripped of `'`; no argument holds a comma or starts or ends with a quote |
| Extract.OnclickArgsRoundTrip | src/scraper.py:274-276 | for a handler `f('a1',...,'an')` with no `(` in `f` and no comma or quote in the arguments, the arguments read back are exactly `a1`…`an` |
| Extract.HandlerCallArgText | src/scraper.py:274-276 | the text between the parentheses of such a call is the joined quoted arguments |
| Extract.QuotedSplits | src/scraper.py:276 | splitting the joined quoted arguments on `,` gives the quoted arguments back |
| Extract.StripQuoted | src/scraper.py:275 | `strip("'")` of a quoted literal without quotes inside gives the literal |
| Extract.ParseResourceRow | src/scraper.py:271-281 | a row yields a record iff it has a title, the icon and its `onclick`; a record has at least two fields |
| Extract.ParseResourceRowFields | src/scraper.py:272-277 | the record is the stripped ASCII title followed by the handler's arguments; its length is two plus the commas |
| Extract.FrameUrl | src/scraper.py:331-332 | the download URL of an iframe; stated by `FrameUrlSpec` |
| Extract.FrameUrlSpec | src/scraper.py:331-332 | the URL is the site plus `src` up to its first `#`; without `#` the last character is lost |
| Extract.Label | src/scraper.py:311 | the renamed title `({num}) {title}`; stated by `LabelRoundTrip` |
| Extract.LabelRoundTrip | src/scraper.py:311 | the renamed title `(n) title` reads back as `n` and the title |
| Extract.Renamed | src/scraper.py:310-311 | renaming keeps the record's other fields and its first field reads back as the number and old title |
| Extract.FileName | src/scraper.py:342-345 | the file name `{title}_{index}.pdf` with unsafe characters replaced; stated by `FileNameSpec` |
| Extract.FileNameSpec | src/scraper.py:342-345 | the file name is safe, as long as `{title}_{index}.pdf`, ends in `.pdf`, and is exactly that text when the title is safe |
| Scraper.FrameStep | src/scraper.py:330-355 | one pass of the frame loop; stated by `FrameStepOk`, `FrameStepSaves` and `FrameStepSavesOnly` |
| Scraper.FramesSteps | src/scraper.py:330-357 | the frame loop: the passes in order, stopping at the first exception; stated by `FramesAllOk`, `FrameSaved`, `FramesSkipFailedFetch` and `FramesSaveInDir` |
| Scraper.FrameStepOk | src/scraper.py:330-341 | a frame's pass succeeds iff it has a `src` and its response does not lack a content length (KeyError, TypeError otherwise) |
| Scraper.FrameStepSaves | src/scraper.py:341-355 | a frame that answered with a length saves a file of that size, named for its index, in the current directory |
| Scraper.FrameStepSavesOnly | src/scraper.py:341-355 | any file a frame saves is in the current directory, named for its index, with the size its response announced |
| Scraper.FramesAllOk | src/scraper.py:330-357 | the frame loop finishes when every frame has a `src` and a content length where it answered |
| Scraper.FrameSaved | src/scraper.py:330-357 | a frame that answered is saved under its own index when the loop finishes |
| Scraper.FramesSkipFailedFetch | src/scraper.py:334-337 | a fetch that raises skips only its frame: every answered frame is saved under its own index, and nothing else is saved |
| Scraper.FramesSaveInDir | src/scraper.py:330-355 | every saved file is in the current directory, named for the index of a frame that answered with its size |
| Scraper.ResourceSteps | src/scraper.py:313-357 | one renamed resource: the selection request from fields 2, 5 and 1 (IndexError below six fields), then its frames; stated by `ResourceSaveInDir` |
| Scraper.ResourcesSteps | src/scraper.py:309-357 | `scrape_notes`/`scrape_slides`: every record renamed `(n) title` and scraped in order, stopping at the first exception; stated by `ResourcesSaveInDir` |
| Scraper.RenamedUpTo | src/scraper.py:310-311 | renaming a prefix keeps the list's length and every record non-empty |
| Scraper.RenamedUpToStep | src/scraper.py:310-311 | renaming record `n` extends the renamed prefix by one |
| Scraper.ResourceSaveInDir | src/scraper.py:309-357 | one resource saves only in the directory it is scraped in |
| Scraper.ResourcesSaveInDir | src/scraper.py:309-357 | a whole list of resources saves only in that directory |
| Scraper.Collected | src/scraper.py:269-281 | the records the row loop keeps; stated by `CollectedSound`, `CollectedComplete`, `CollectedShape` and `CollectedAppend` |
| Scraper.CollectedAppend | src/scraper.py:269-281 | collecting two runs of rows concatenates their records |
| Scraper.CollectedSound | src/scraper.py:269-281 | every collected record is the parse of some row |
| Scraper.CollectedComplete | src/scraper.py:269-281 | every row that parses is collected |
| Scraper.CollectedShape | src/scraper.py:269-281 | no more records than rows, each with at least two fields |
| Scraper.CollectResources | src/scraper.py:269-281 | the row loop collects exactly the parsed rows in order, each with at least two fields |
| Scraper.ScrapedIndices | src/scraper.py:201 | `range(6, len(subjects))`; stated by `ScrapedIndicesSpec` |
| Scraper.ScrapedIndicesSpec | src/scraper.py:200-202 | the visited indices are exactly 6 up to the last, increasing |
| Scraper.UnitSteps | src/scraper.py:243-307 | `scrape_unit`: the unit request, nothing more without a resource table, otherwise the unit's downloads; stated by `UnitSavesInItsDirs` |
| Scraper.UnitDownloads | src/scraper.py:269-307 | the notes scraped in `unit/Notes`, then the slides in `unit/Slides`; FileNotFoundError for an empty sanitised unit name |
| Scraper.SubjectSteps | src/scraper.py:204-241 | `scrape_subject`: IndexError on a short record, the subject request, nothing more without tab content, AttributeError without the unit block, otherwise every unit scraped inside the subject's directory |
| Scraper.UnitSavesInItsDirs | src/scraper.py:303-307 | a unit saves only in its `Notes` and `Slides` directories |
| Scraper.UnitDownloadDirs | src/scraper.py:303-307 | the directories one unit's downloads create: the unit's and its `Notes`, then its `Slides` unless the notes raised; none for an empty sanitised name |
| Scraper.UnitDirs | src/scraper.py:243-307 | the directories `scrape_unit` creates: none without a resource table |
| Scraper.UnitsDirs | src/scraper.py:239-241 | the directories the unit loop creates, up to and including the first unit that raises |
| Scraper.SubjectDirs | src/scraper.py:204-241 | the directories `scrape_subject` creates: the subject's directory and its units', once the record, tab content and unit list have been read |
| Scraper.SubjectsDirs | src/scraper.py:200-202 | the directories the subject loop creates, up to and including the first subject that raises |
| Scraper.Visited | src/scraper.py:201 | the subjects visited are those at `ScrapedIndices`, in order |
| Scraper.UnitDirsHoldSaves | src/scraper.py:303-307 | every file a unit saves is in a directory that scraping the unit created |
| Scraper.DotDotUnitDirs | src/scraper.py:303-307 | a unit named `..` gets its `Notes` directory beside the subject's directory |
| Scraper.DotDotUnitSaves | src/scraper.py:303-307 | a unit named `..` saves its notes and slides beside the subject's directory, outside the subject's tree |
| Scraper.SubjectResultsVisit | src/scraper.py:200-202 | one subject outcome per visited index, each that subject's `scrape_subject` |
| Scraper.NameValue | src/scraper.py:111-113 | a stripped cookie piece yields a pair iff it holds `=`; name and value hold no `=`, `name=value` begins the piece, and the value ends at the piece's end or at its next `=` |
| Scraper.CookieEntries | src/scraper.py:109-111 | one entry per `;`-separated piece of the Cookie header |
| Scraper.RotatedCookies | src/scraper.py:109-113 | the cookie jar after the loop over the header's entries; stated by `RotatedCookiesSpec` |
| Scraper.RotatedCookiesSpec | src/scraper.py:109-113 | after rotation a cookie is present iff it was or the header carries it; the header's last value wins; an uncarried cookie keeps its root-page value |
| Scraper.LoginSession | src/scraper.py:72-123 | the jar and token `login` leaves, or its exception; stated by `LoginSessionSucceeds` and `LoginSessionHolds` |
| Scraper.SessionAfter | src/scraper.py:107-123 | the end of `login` after the credentials were accepted; stated by `SessionAfterHolds` |
| Scraper.LoginSessionSucceeds | src/scraper.py:72-123 | login succeeds iff the root token, the profile header, the SRN line, the Cookie header and the profile token are all present and the Cookie header rotates |
| Scraper.LoginSessionHolds | src/scraper.py:107-123 | a successful login keeps the rotated jar and the ASCII part of the profile page's token |
| Scraper.SessionAfterHolds | src/scraper.py:109-123 | the end of login succeeds iff the rotation did and the token is there; a rotation error is passed through |
| Scraper.MyCoursesRun | src/scraper.py:128-192 | the requests `my_courses` sends and how it ends; stated by `MyCoursesSemesterLookup` and `MyCoursesListed` |
| Scraper.SelectedCourses | src/scraper.py:186-192 | the subject table, or IndexError when a record is too short to display |
| Scraper.MyCoursesSemesterLookup | src/scraper.py:151-180 | a semester missing from the list stops after two requests; a listed one is selected with the id the list maps it to |
| Scraper.MyCoursesListed | src/scraper.py:157-192 | listed subjects are the records of the table the portal returns for the id the semester list maps `str(semester)` to, one per row, each formattable |
| Scraper.FixedNamesPlain | src/scraper.py:303-307 | `Notes` and `Slides` are entered as they are |
| Scraper.Client.constructor | src/scraper.py:64-70 | keeps the credentials and starts with an empty session |
| Scraper.Client.RotateCookies | src/scraper.py:109-113 | the cookie loop succeeds iff `RotatedCookies` does, and then the jar is its result; otherwise it raises the same exception |
| Scraper.Client.Login | src/scraper.py:72-123 | sends the root request, then the credentials with the root token; its outcome and the stored jar and token are those of `LoginSession`; a success sent the profile request third; a raise sent only the root request without a root token, root and credentials when a login page element is missing or the rotation raises, and the profile request third only after a successful rotation; after a raise the jar is the root page's (or the rotated one, when the rotation succeeded) and the token is the root page's (unchanged without one) |
| Scraper.Client.FinishLogin | src/scraper.py:107-123 | the profile page is fetched iff the rotation succeeded, and then the jar is the rotated one; the outcome is that of `SessionAfter`; a raise leaves the token unchanged |
| Scraper.Client.MyCourses | src/scraper.py:128-192 | sends and ends as `MyCoursesRun`; stores the subject table whenever it was read, even when formatting then raises |
| Scraper.Client.ListSubjects | src/scraper.py:186-192 | ends as `SelectedCourses`; stores the table whenever it reads |
| Scraper.Client.FormatSubjects | src/scraper.py:191-192 | the display loop succeeds iff every record has four fields, raising IndexError otherwise; it yields each record's view in order |
| Scraper.Client.ScrapeResources | src/scraper.py:309-357 | performs `ResourcesSteps` and leaves the first `done` records renamed in place, all of them on success |
| Scraper.Client.RenameAndScrape | src/scraper.py:310-324 | renames record `i` in place and performs its `ResourceSteps` |
| Scraper.Client.ScrapeList | src/scraper.py:304 | scraping a list performs `ResourcesSteps` |
| Scraper.Client.ScrapeResource | src/scraper.py:313-357 | one resource performs `ResourceSteps` (IndexError with fewer than six fields) |
| Scraper.Client.FetchFrame | src/scraper.py:330-355 | one frame performs `FrameStep` |
| Scraper.Client.FetchFrames | src/scraper.py:330-357 | the frame loop performs `FramesSteps` |
| Scraper.Client.ScrapeUnit | src/scraper.py:243-307 | performs `UnitSteps` and restores the working directory; adds exactly `UnitDirs` to the directories; when the unit has a resource table and succeeds, the unit, Notes and Slides directories exist |
| Scraper.Client.DownloadUnit | src/scraper.py:269-307 | performs `UnitDownloads`, restoring the working directory and adding exactly `UnitDownloadDirs` to the directories |
| Scraper.Client.ScrapeInNested | src/scraper.py:303-307 | an empty outer name raises FileNotFoundError; otherwise the records are scraped in `outer/inner`, exactly those two directories are added, and the working directory is restored; scopes are left in reverse order of entry |
| Scraper.Client.ScrapeSubject | src/scraper.py:204-241 | performs `SubjectSteps`, restores the working directory and adds exactly `SubjectDirs` to the directories |
| Scraper.Client.ScrapeUnits | src/scraper.py:239-241 | the unit loop performs every unit's steps in order, stopping at the first exception, and adds exactly `UnitsDirs` to the directories |
| Scraper.Client.ScrapeSubjects | src/scraper.py:200-202 | scrapes subjects 6 onwards in order, stopping at the first exception, restores the working directory and adds exactly `SubjectsDirs` of the visited subjects |

## Left out

- FramesSteps, ResourcesSteps, UnitSteps, SubjectSteps: an outcome that raises carries the exception only. The requests sent and the files saved before the exception are not recorded.
- Logging, `print`, the progress bar, `time.sleep` and the size in MB are not modelled. They produce output only.
- The `exit()` for an unknown semester (src/scraper.py:163-165) becomes the `SemesterNotFound` outcome, with no further requests.
- HTTP and HTML parsing are replaced by the `Portal` and `LoginPages` values, which hold the pages already parsed. The request URLs are the `Endpoint` values, with their fixed URLs. Cookies sent along with each request are not recorded in the steps.
- Downloaded file contents are not modelled. A saved file is its directory, name and announced size.
- The name and SRN lines of `login` (src/scraper.py:101-103) are only checked for presence. The SRN word split is not modelled.
- The cookie jar is a map from name to value. Cookie domains and paths are not modelled, and neither is the `set(name, None)` removal, since it is followed by setting the same name.
- Scraper.Client.RotateCookies: when a piece has no `=`, the source has already removed that name from the jar before the IndexError. The model leaves the jar as it was before that piece.
- Scraper.Client.Login: when the cookie rotation raises, the jar left behind is not stated, for the reason given for RotateCookies.
- A tag that is present but lacks the attribute read from it (`['content']`, `['value']`) raises KeyError in the source. The model only distinguishes a missing tag (`None`): TypeError for the csrf meta tags, KeyError for the option value, `href`, `id` and `src`.
- The `content-length` header is read as a natural number. `int()` of a malformed header (ValueError) is not modelled.
- `DirScope.FileSystem` tracks directories only. Regular files, name length limits, NUL characters and permissions are not modelled. `os.makedirs` fails only on the empty name, and `.` and `..` are resolved like the operating system does.
- Scraper.Client.ScrapeInNested requires a plain inner name. Only the fixed `Notes` and `Slides` are ever passed.
- Scraper.Client.constructor: the source starts with `None` for cookies, token and subjects, and the model starts with empty values. Calling `scrape_subjects` before `my_courses` (a TypeError on `len(None)`) is therefore not modelled.
- `logout` (an empty method), `src/main.py`, `src/parser.py` and `src/download.py` are not part of this model. This includes the `Sem-{semester}` directory that `main` wraps around `scrape_subjects`.
- `scrape_slides` (src/scraper.py:359-407) is the same code as `scrape_notes` over the slides list. It is modelled by the same `ScrapeResources` method.
