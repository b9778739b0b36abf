# reSearch resume pipeline and search session, in Dafny

reSearch turns uploaded resumes (PDF, DOCX, TXT) into JSON candidate records
and serves a search page over them. This project models three parts of it.

- **The resume pipeline** (`process_resumes.py`):
  - `extract_text` picks a reader by the lower-cased extension.
  - A loop saves every extracted text as `<stem>.txt`, skipping error texts.
  - `clean_text` normalises whitespace.
  - The rule-based extractors read the cleaned text: contacts, gender, years
    of experience, education tier, skills, and the label-then-content
    sections.
  - `process_resume` assembles the record and strips every string value.
  - The id allocator numbers new `candidate<id>.json` files after the
    largest existing id.
- **The server session** (`app.py`):
  - the search history, a front-inserted list of at most ten entries, with
    delete by index;
  - the favourites, a list of ids free of duplicates;
  - the selection of results: a threshold, a stable sort by descending
    score, and the first twenty.
- **The page script** (`static/js/script.js`): the pagination state
  (`currentPage`, `totalPages`), the page slice, the previous/next handlers,
  the disabled rule of both buttons, and the favourite toggle of the profile
  page.

## How the model is built

- Pure code is written as functions. Each regular expression is a recursive
  search with Python's leftmost, greedy or lazy semantics.
- Loops in the source are methods with loops, proved against those
  functions:
  - the month sum of `extract_experience_years`;
  - the skill buckets;
  - the cleanup loop of `process_resume`;
  - the saving loop;
  - the numbering loop;
  - the selection loop of `index`.
- The Flask session is the class `App.Session`. Its fields are the
  `history` and `favorites` keys, `None` while a key is absent.
- The page script is the class `Pagination.SearchPage`. Its fields are the
  script's closure variables plus the part of the page they decide.
- Foreign code comes in as parameters:
  - what a reader returned, or the message of the exception it caught;
  - the named-entity name and the gender guessed from it;
  - the current date;
  - the folder listings;
  - whether a read or a write succeeded;
  - the similarity scores and their rounded percentages.

Because `clean_text` turns every newline into a space, every extractor that
looks for a newline behaves in one fixed way on the cleaned text. The model
keeps this behaviour and proves it:

- A section runs from its header to the end of the text.
- `extract_last_position` always returns an empty string.

The experience sum adds `(ey - sy) * 12 + (em - sm)` per range, with no
added month: a range from a month to itself counts 0 months, and January to
December of one year counts 11 (`Experience.SpansAreNotInclusive`).

## Model

| member | source | states |
|---|---|---|
| Clean.CrLfToLf | process_resumes.py:263 | every `\r\n` becomes `\n`; the result is never longer |
| Clean.SqueezeNewlines | process_resumes.py:264 | no two newlines are adjacent in the result, and it starts with a newline iff the input does |
| Clean.SpacesBeforeNewline | process_resumes.py:265 | `\s+\n` becomes `\n`, leftmost and greedy; the result is never longer |
| Clean.NewlineThenSpaces | process_resumes.py:266 | `\n\s+` becomes `\n`, leftmost and greedy; the result is never longer |
| Clean.CleanText | process_resumes.py:262-269 | the result has no newline, no leading or trailing whitespace, and no whitespace run other than one space; it is never longer than the input |
| Clean.CrLfToLfKeepsCollapse | process_resumes.py:263 | the first substitution does not change what the whitespace collapse gives |
| Clean.SqueezeNewlinesKeepsCollapse | process_resumes.py:264 | the second substitution does not change what the whitespace collapse gives |
| Clean.SpacesBeforeNewlineKeepsCollapse | process_resumes.py:265 | the third substitution does not change what the whitespace collapse gives |
| Clean.NewlineThenSpacesKeepsCollapse | process_resumes.py:266 | the fourth substitution does not change what the whitespace collapse gives |
| Clean.CleanTextIsStripCollapse | process_resumes.py:262-269 | `clean_text` equals stripping after collapsing every whitespace run to one space |
| Clean.CleanTextIdempotent | process_resumes.py:262-269 | `clean_text(clean_text(t)) == clean_text(t)` |
| Clean.CleanTextIgnoresSpacing | process_resumes.py:262-269 | replacing one non-empty whitespace run by another does not change the result |
| Text.Strip | process_resumes.py:268 | `str.strip()`: no whitespace at either end, empty iff the input is all whitespace |
| Text.Collapse | process_resumes.py:267 | `re.sub(r'\s+', ' ', t)`: the result has no two adjacent spaces, is empty iff the input is, and starts with a space iff the input starts with whitespace |
| Text.Squish | process_resumes.py:514-515 | strip then collapse gives a normalised string, empty iff the input is all whitespace |
| Text.CollapseSingleSpaced | process_resumes.py:267 | collapsing a string that is already single-spaced changes nothing |
| Text.StripNormalized | process_resumes.py:268 | stripping a normalised string changes nothing |
| Text.LowerStr | process_resumes.py:169 | `.lower()` keeps the length, and maps letters only; digits, spaces and word characters keep their class |
| Text.NatToString | process_resumes.py:356 | `str(n)` is a non-empty run of digits without a leading zero |
| Text.NatToStringRoundTrip | process_resumes.py:356 | reading back the digits of `str(n)` gives `n` |
| Text.ParseInt | process_resumes.py:334 | `int(s)` succeeds on a run of ASCII digits with its value, and only on strings that end in a digit |
| Text.Words | process_resumes.py:331 | `str.split()` gives non-empty words without whitespace |
| Contacts.PhoneAt | process_resumes.py:297 | a phone match at a position has at least nine characters and ends in a digit |
| Contacts.PhoneAtShape | process_resumes.py:297 | a phone match is an optional `+`, a digit, seven or more digits, dashes or spaces, and a final digit |
| Contacts.FindPhone | process_resumes.py:297 | the leftmost position where the phone pattern matches, and no match before it |
| Contacts.ExtractPhone | process_resumes.py:297-298 | the text of the leftmost phone match, or "" iff the pattern matches nowhere; a non-empty result has the phone shape |
| Contacts.EmailAt | process_resumes.py:300 | an e-mail match at a position is at least three characters long |
| Contacts.EmailAtShape | process_resumes.py:300 | an e-mail match is word characters, dots or dashes around one `@` |
| Contacts.EmailAtEnd | process_resumes.py:300 | the greedy match stops only at the end of the text or at a character the pattern cannot take |
| Contacts.EmailIsWholeToken | process_resumes.py:300-301 | the first e-mail match cannot be extended on either side |
| Contacts.FindEmail | process_resumes.py:300 | the leftmost position where the e-mail pattern matches, and no match before it |
| Contacts.ExtractEmail | process_resumes.py:300-301 | the text of the leftmost e-mail match, or "" iff the pattern matches nowhere |
| Contacts.Capitalize | process_resumes.py:307 | `str.capitalize()` keeps the length |
| Contacts.CapitalizeMatch | process_resumes.py:305-307 | a case-insensitive match of "Мужчина" or "Женщина", capitalised, is that word |
| Contacts.FindGenderWord | process_resumes.py:305 | the leftmost whole-word match of either word, case ignored, and none before it |
| Contacts.ExtractGender | process_resumes.py:304-320 | the literal word when the text holds one, otherwise the gender guessed from the name |
| Contacts.GenderValues | process_resumes.py:304-320 | the result is "Мужчина", "Женщина" or ""; with a literal word in the text the guess does not matter |
| Experience.Lookup | process_resumes.py:333 | `month_map.get(word)`: a value paired with the word in the table, or none when no entry has that word |
| Experience.LookupFindsFirst | process_resumes.py:323-333 | the lookup returns the value of the first entry with that word |
| Experience.MonthNumber | process_resumes.py:323-333 | a known month word maps to a number from 1 to 12 |
| Experience.ParseDate | process_resumes.py:322-341 | a parsed date is either `now` or has a valid year and a month from 1 to 12 |
| Experience.ParseLowered | process_resumes.py:329-341 | the same, for text that is already stripped and lower-cased |
| Experience.ParseWords | process_resumes.py:331-341 | one or two words parse to a valid year and month, or fail |
| Experience.ParsePresent | process_resumes.py:329-330 | "настоящее время" and "по настоящее время" parse to `now` |
| Experience.ParseMonthYear | process_resumes.py:332-336 | "month-name year" parses to (year, month) |
| Experience.ParseLoneYear | process_resumes.py:337-340 | a lone year parses to (year, 1) |
| Experience.UnknownMonthFails | process_resumes.py:332-341 | a word missing from the month table makes the parse fail |
| Experience.WordSpaceYearAt | process_resumes.py:344 | a `\w+\s+\d{4}` match at a position ends after it |
| Experience.StartEnds | process_resumes.py:344 | every place where the start alternative can end lies after its start |
| Experience.EndEnds | process_resumes.py:344 | every place where the end alternative can end lies after its start |
| Experience.SeparatorEnd | process_resumes.py:344 | `\s*[—\-–]\s*` ends after its start, or does not match |
| Experience.MatchesAfterStart | process_resumes.py:344 | every range match found after a start alternative carries that start text and ends within the text |
| Experience.MatchesFromEnd | process_resumes.py:344 | the same, counted from the end of the separator |
| Experience.MatchesAt | process_resumes.py:344 | every range match at a position ends after it |
| Experience.FindRanges | process_resumes.py:344 | `re.findall` scans left to right: every match lies after the scan position |
| Experience.FindRangesIsScan | process_resumes.py:344 | the matches found are those of a left-to-right scan: each starts where the pattern matches, at or after the end of the previous match; no match is possible at a position skipped before it, nor after the last one |
| Experience.ScanSkip | process_resumes.py:344 | a position where no range matches can be passed over without changing the scan |
| Experience.ScanTake | process_resumes.py:344 | a match at the scan position is taken, and the scan goes on from its end |
| Experience.OneRangeFound | process_resumes.py:344 | "month year — month year" is found as one range with both sides |
| Experience.SingleRangeFound | process_resumes.py:344 | a text made of one range yields exactly that range |
| Experience.YearsText | process_resumes.py:354-357 | "" iff the total is not positive, otherwise the digits of `total // 12` |
| Experience.TotalMonths | process_resumes.py:345-351 | the month sum is 0 when every range spans 0 months, and never negative when no range spans a negative number |
| Experience.ExtractExperienceYears | process_resumes.py:343-357 | the loop result equals the years text of the month sum over every range found in the lower-cased text |
| Experience.TotalMonthsStep | process_resumes.py:346-351 | one loop step adds the span of that range |
| Experience.TotalMonthsAppend | process_resumes.py:345-351 | the month sum over two lists of ranges is the sum of their sums |
| Experience.UnparsableRangeSkipped | process_resumes.py:347-353 | a range whose start or end fails to parse adds nothing |
| Experience.SpansAreNotInclusive | process_resumes.py:350 | a range from a month to itself spans 0 months; January to December spans 11 |
| Experience.SingleRangeMonths | process_resumes.py:343-357 | for a one-range text the result is the years text of `(y2 - y1) * 12 + (m2 - m1)` |
| Experience.ThirtyFiveMonthsAreTwoYears | process_resumes.py:343-357 | "январь 2019 — декабря 2021" gives "2" |
| Sections.SectionEnd | process_resumes.py:376 | the first section boundary at or after a position, and none before it |
| Sections.LineEnd | process_resumes.py:443 | the first newline or the end of the text, and no newline before it |
| Sections.HeaderAt | process_resumes.py:376 | the first header of the alternation that matches at a position, case ignored, or none iff none matches |
| Sections.HeaderAtIsFirst | process_resumes.py:376 | the header found is the earliest alternative that matches |
| Sections.FindHeader | process_resumes.py:376 | the leftmost position where some header matches, and none before it |
| Sections.SkipSeparator | process_resumes.py:376 | `\s*[:\-]?\s*` stops at the end or before a non-space |
| Sections.LineBody | process_resumes.py:443-445 | the captured line holds no newline |
| Sections.SectionText | process_resumes.py:376-381 | the section text is normalised, and empty iff there is no header or only whitespace after it |
| Sections.LineText | process_resumes.py:443-447 | the line text holds no newline and no whitespace at either end, and is empty iff there is no header or only whitespace after it |
| Sections.ExtractLanguages | process_resumes.py:375-382 | "" when no languages header occurs; otherwise what follows the first header and its separator, up to the section boundary, stripped and with its whitespace runs collapsed; always normalised |
| Sections.ExtractCertifications | process_resumes.py:415-422 | the same rule, with the certification headers |
| Sections.ExtractPersonalQualities | process_resumes.py:424-431 | the same rule, with the personal-qualities headers |
| Sections.ExtractSummary | process_resumes.py:433-440 | the same rule, with the summary headers |
| Sections.ExtractDesiredSalary | process_resumes.py:442-447 | "" when no salary header occurs; otherwise the rest of the header's line after its separator, stripped; never a newline |
| Sections.ExtractWorkSchedule | process_resumes.py:449-454 | the same rule, with the schedule headers |
| Sections.SectionRunsToEnd | process_resumes.py:376 | on a text without newlines a section runs to the end of the text |
| Sections.SectionBodyOnOneLine | process_resumes.py:376-381 | on a text without newlines the section body is everything after the header and separator |
| Sections.SectionTextOnOneLine | process_resumes.py:376-381 | on a text without newlines the section text is the stripped rest of the text |
| Sections.FirstLine | process_resumes.py:466-468 | the text up to its first newline, or the whole text |
| Sections.ExtractFieldOfActivity | process_resumes.py:456-469 | "" without the desired-position header; the stripped rest of the "Специализации" line when the section holds one; otherwise the first line of the stripped section, stripped; never a newline |
| Sections.EducationSection | process_resumes.py:360 | the education section starts with its header |
| Sections.ClassifyTier | process_resumes.py:363-373 | "" iff no tier keyword occurs; otherwise the category of the first tier, in the fixed order, whose keyword occurs |
| Sections.ExtractEducationCategory | process_resumes.py:359-373 | "" without an education header; otherwise the tier of the section; always "" or one of the five categories |
| Sections.EducationCategoryIsFirstTier | process_resumes.py:359-373 | no earlier tier than the one returned is mentioned in the section |
| Sections.LastSplitEnd | process_resumes.py:385-387 | where the last piece of `re.split` starts; none iff no header occurs |
| Sections.FirstNewline | process_resumes.py:389 | the first newline at or after a position, and none before it |
| Sections.CaptureLine | process_resumes.py:389 | the lazy `(.*?)\n` capture holds no newline, and fails iff no newline follows |
| Sections.FirstCapture | process_resumes.py:389 | the capture comes from the first range match that is followed by a newline |
| Sections.FindPosition | process_resumes.py:389 | the position capture holds no newline |
| Sections.ExtractLastPosition | process_resumes.py:384-392 | "" when no experience header occurs; never a newline |
| Sections.NoPositionOnOneLine | process_resumes.py:389 | on a text without newlines the position pattern never matches |
| Sections.LastPositionOnOneLine | process_resumes.py:384-392 | on a text without newlines the last position is "" |
| Sections.PositionOnNextLine | process_resumes.py:389-391 | on raw text, the line after a date range is captured as the position |
| Skills.SplitSeparators | process_resumes.py:401 | `re.split(r',\|;', s)` gives at least one piece, none holding a separator |
| Skills.Tokens | process_resumes.py:401 | the stripped non-empty pieces, in order, each a token |
| Skills.StripKeepsNoSeparator | process_resumes.py:401 | stripping a piece adds no separator |
| Skills.SoftOf | process_resumes.py:406-408 | the soft bucket holds only soft tokens of the input |
| Skills.HardOf | process_resumes.py:409-410 | the hard bucket holds only tokens of the input that are not soft |
| Skills.SkillTokens | process_resumes.py:396-401 | every token of the skills section is non-empty, stripped and free of separators |
| Skills.ExtractSkills | process_resumes.py:394-413 | the loop's buckets are the soft and hard filters of the tokens, joined with ", " |
| Skills.FilterStep | process_resumes.py:406-410 | one loop step appends the token to exactly one bucket |
| Skills.BucketsPartition | process_resumes.py:404-410 | the two buckets together hold every token exactly once |
| Skills.BucketsHoldTokens | process_resumes.py:404-410 | every bucket entry is a token |
| Skills.TokensOfBucket | process_resumes.py:401-412 | splitting a joined bucket gives the bucket back |
| Skills.BucketsRoundTrip | process_resumes.py:401-412 | splitting either joined bucket again gives that bucket back |
| Record.FieldValue | process_resumes.py:492-509 | the id field is the numeric `candidate_id`; every other field is a string |
| Record.EveryFieldIsAKey | process_resumes.py:472-495 | every field is among the record's keys |
| Record.RecordKeysDistinct | process_resumes.py:472-495 | the record has seventeen distinct keys |
| Record.InitialFields | process_resumes.py:472-488 | the dictionary literal holds exactly the fifteen initial keys |
| Record.EarlyFieldValue | process_resumes.py:472-509 | a key of the literal ends with the value its extractor assigned |
| Record.AssignedFieldValue | process_resumes.py:492-509 | after the assignments every field holds its extractor's value |
| Record.SourceOrderFillsRecord | process_resumes.py:472-509 | the assignments in source order give exactly the extracted fields |
| Record.CleanValue | process_resumes.py:513-515 | a string value becomes normalised, a number is kept |
| Record.ResumeRecord | process_resumes.py:471-516 | the record has the seventeen keys and its `id` is `candidate_id` |
| Record.AssignEarly | process_resumes.py:472-500 | the literal and the assignments up to the last position give the early fields of the extraction |
| Record.AssignLate | process_resumes.py:501-509 | the remaining assignments, from the skills to the field of activity, give exactly the extracted fields |
| Record.CleanupRecord | process_resumes.py:512-515 | the cleanup loop keeps the keys and applies strip and collapse to every string value |
| Record.ProcessResume | process_resumes.py:471-516 | the method's record is the record function of the cleaned text |
| Record.CleanupGivesRecord | process_resumes.py:512-516 | cleaning the assigned fields gives the record |
| Record.RecordShape | process_resumes.py:471-516 | the record has all seventeen keys; `id` is `candidate_id`; every other value is a normalised string |
| Record.RecordOfField | process_resumes.py:471-516 | each field of the record is the cleaned value of its extractor |
| Record.CleanupKeepsNormalized | process_resumes.py:512-515 | a value that is already normalised passes the cleanup unchanged |
| Record.Squished | process_resumes.py:514-515 | strip and collapse leave a normalised string unchanged |
| Record.LastPositionAlwaysEmpty | process_resumes.py:489-500 | "Последняя должность" is always "" |
| Record.LanguagesRunToEnd | process_resumes.py:375-381 | the languages field is everything after the header to the end of the cleaned text |
| Ingest.LastIndexOf | process_resumes.py:169 | the last position of a character, or -1 when it does not occur |
| Ingest.Basename | process_resumes.py:177 | the basename holds no `/` and is a suffix of the path |
| Ingest.NameExt | process_resumes.py:169 | the extension is empty or a dot followed by no further dot, and is a suffix of the name |
| Ingest.SplitExt | process_resumes.py:169 | `os.path.splitext`: the two parts concatenate to the path; the extension is taken from the basename |
| Ingest.ExtractText | process_resumes.py:168-178 | the first component is always the basename; an unsupported extension gives exactly the marker; a read gives its text; a failure gives an error text |
| Ingest.BasenameOfJoin | process_resumes.py:188-192 | the basename of a joined path is the file name |
| Ingest.SplitExtOfName | process_resumes.py:169 | `splitext(stem + ext)` splits at the extension |
| Ingest.ExtensionCaseIgnored | process_resumes.py:169 | two extensions equal up to case pick the same reader |
| Ingest.SupportedFiles | process_resumes.py:187-192 | a path is kept iff it joins the folder with a listed name whose lower-cased extension is `.pdf`, `.docx` or `.txt` |
| Ingest.SupportedExtensionHasReader | process_resumes.py:170-175 | each supported extension has a reader |
| Ingest.SupportedHasReader | process_resumes.py:187-192 | a listed supported file has a reader |
| Ingest.SupportedFilesHaveReaders | process_resumes.py:168-192 | no file the filter keeps gets the unsupported marker |
| Ingest.TxtFiles | process_resumes.py:252 | exactly the listed names that end in `.txt`, case ignored |
| Ingest.Saved | process_resumes.py:228-240 | the saved folder keeps every file name it had, and every file it adds or changes is the `.txt` name of a result that was not skipped |
| Ingest.SaveExtractedTexts | process_resumes.py:228-240 | the saving loop leaves the folder that the save function describes |
| Ingest.SavedStep | process_resumes.py:228-240 | one loop step skips an error text or writes `<stem>.txt` |
| Ingest.SavedTextsAreNotSkipped | process_resumes.py:230-232 | no error text or unsupported marker is ever written |
| Ingest.SavedNamesAreTxt | process_resumes.py:234-235 | every file the loop writes is named `*.txt` |
| Ingest.SavedLastWins | process_resumes.py:228-240 | a saved text is found under its `<stem>.txt` name unless a later result writes the same name |
| Ingest.ReadFileIsSaved | process_resumes.py:228-240 | a file of a supported format whose text was read is saved under `<stem>.txt` with that text |
| Ingest.FailedFileIsNotSaved | process_resumes.py:230-232 | a file that failed or has an unsupported format leaves the folder unchanged |
| Ids.FirstDigitFrom | process_resumes.py:520 | the first digit at or after a position, and none before it |
| Ids.FirstNumber | process_resumes.py:520 | `re.findall(r'\d+', f)[0]` exists iff the name holds a digit |
| Ids.ExistingIds | process_resumes.py:519-520 | the scan fails iff some `candidate*.json` name has no digit; otherwise it holds the first number of every such name and nothing else |
| Ids.MaxOrZero | process_resumes.py:521 | the largest id, 0 for none, and an id of the list otherwise |
| Ids.StartId | process_resumes.py:519-524 | the first id exists iff the scan of existing ids succeeds; it is at least 1 and larger than every existing id |
| Ids.OutputName | process_resumes.py:536 | `candidate<id>.json` starts with `candidate` and ends with `.json` |
| Ids.Written | process_resumes.py:524-544 | the loop keeps every file the output folder had |
| Ids.FirstNumberOf | process_resumes.py:520 | the first number of a name is the value of its first digit run |
| Ids.OutputNameRoundTrip | process_resumes.py:520-536 | `candidate<id>.json` is a candidate file name whose first number is `id` |
| Ids.OutputNameInjective | process_resumes.py:536 | two ids never share an output name |
| Ids.FirstRunStartsAtOne | process_resumes.py:521-524 | with no candidate files the first id is 1 |
| Ids.NewIdsAreFresh | process_resumes.py:518-524 | every new id is larger than every existing one, and its file name is not in the folder yet |
| Ids.ProcessFiles | process_resumes.py:524-544 | the numbering loop writes the files that the written-records function describes |
| Ids.AllocateAndProcess | process_resumes.py:518-544 | the script fails iff some candidate file name has no digit; otherwise it writes the records numbered from the largest id plus one |
| Ids.WrittenStepStored | process_resumes.py:533-540 | a read and stored file adds `candidate<idx>.json` with its record |
| Ids.WrittenStepSkipped | process_resumes.py:526-544 | a file that could not be read or written adds nothing, but its id is still used up |
| Ids.WrittenRecordAt | process_resumes.py:524-540 | the i-th input, once read and stored, is saved as `candidate<first + i>.json` with its record |
| Ids.WrittenKey | process_resumes.py:524-540 | every new file comes from one input, and is named after that input's id |
| Ids.BuilderIs | process_resumes.py:533 | the record builder is `process_resume` |
| Ids.BuilderStampsIds | process_resumes.py:486 | the record built for an id carries that id |
| Ids.RecordIdMatchesName | process_resumes.py:533-536 | every new file's `id` field equals the number in its name |
| Ids.NextRunContinues | process_resumes.py:518-524 | the next run starts after the largest id written by this one |
| App.Removed | app.py:137 | the list without the element at `j`, the others in order |
| App.AfterSave | app.py:44-51 | the new entry is first; the rest is the previous first nine at most, in order; the length is `min(10, n + 1)` |
| App.PopIndex | app.py:137 | `pop(index)` raises OverflowError iff the index lies outside `[-2^63, 2^63)`; otherwise it removes an element iff `-n <= index < n`, at `index` or `n + index`, and raises IndexError else |
| App.FirstIndex | app.py:182 | the first position of the element |
| App.AddedTo | app.py:166-169 | the id is appended iff it is non-empty and absent; the previous list is kept as a prefix |
| App.RemovedFrom | app.py:181-182 | an absent id leaves the list unchanged; a present one removes one occurrence |
| App.IdText | app.py:164 | `str(None)` is "None", so a missing field is never empty |
| App.NameOf | app.py:106 | the full name when present and non-empty, "Неизвестный кандидат" otherwise |
| App.Selected | app.py:102-109 | every resume at or over the threshold gives an entry, and every entry comes from such a resume |
| App.SelectMatches | app.py:101-109 | the selection loop gives the selected entries |
| App.Insert | app.py:112 | inserting adds exactly one entry |
| App.SortDesc | app.py:112 | the sort keeps exactly the entries of the input, as a multiset |
| App.SearchResult | app.py:98-115 | the answer holds exactly `min(20, m)` entries, `m` the number of resumes at or over the threshold |
| App.Top | app.py:115 | exactly `min(20, n)` entries, a prefix of the list; the whole list when it is short |
| App.Session.constructor | app.py:45 | a new session has neither key |
| App.Session.SaveSearchHistory | app.py:44-51 | the history becomes the saved list of the previous history, or of `[]` when the key was absent; the favourites are unchanged |
| App.Session.Search | app.py:78-119 | no JSON body or no `query` key: abort with 400 and no change; a query that is not a string: `.lower()` raises, an uncaught error with no change; a string query: the answer is the search result, saved first in the history with the lower-cased query; the favourites never change |
| App.Session.DeleteHistory | app.py:131-146 | no history: "No history found" with 400; a missing or non-integer index: an uncaught TypeError; an index outside the 64-bit range: an uncaught OverflowError; an index in range: "success" and that entry removed; otherwise "Invalid index" with 400; no change except the removal |
| App.Session.AddFavorite | app.py:162-174 | always "added"; the favourites become the added-to list of the previous ones, or of `[]` |
| App.Session.RemoveFavorite | app.py:177-187 | always "removed"; the favourites become the removed-from list, or stay absent |
| App.HistoryStaysBounded | app.py:47-49 | saving keeps the history at ten entries at most |
| App.SaveThenDeleteFirst | app.py:137 | deleting entry 0 right after a save restores a history of fewer than ten entries |
| App.PopLastIsOldest | app.py:137 | `pop(-1)` removes the oldest entry |
| App.AddKeepsDistinct | app.py:168-169 | adding keeps the favourites free of duplicates |
| App.AddIdempotent | app.py:168-169 | adding the same id twice is adding it once |
| App.RemovedDistinct | app.py:182 | removing one element from a list without duplicates leaves none of it |
| App.RemoveKeepsDistinct | app.py:181-182 | removing keeps the favourites free of duplicates and the id gone |
| App.AddThenRemove | app.py:162-187 | adding an absent id and removing it restores the favourites |
| App.InsertSorted | app.py:112 | inserting into a descending list keeps it descending |
| App.InsertWithScore | app.py:112 | inserting puts the new entry after every entry of equal score |
| App.SortDescSorted | app.py:112 | the sort gives a descending list with the same entries |
| App.SortDescStable | app.py:112 | the sort keeps the order of the entries of each score |
| App.SortDescCorrect | app.py:112 | `sort(key=score, reverse=True)` is descending, a permutation, and stable |
| App.SearchResultCorrect | app.py:98-115 | exactly `min(20, m)` entries, descending, each from a resume at or over the threshold; with twenty matches or fewer, all of them |
| App.TopKeepsBest | app.py:115 | on a descending list, no entry cut off scores higher than an entry kept |
| App.TopWithScore | app.py:115 | the kept entries of any one score are the first entries of that score, in order |
| App.SearchResultKeepsBest | app.py:98-115 | no match left out of the answer scores higher than a match in it |
| App.SearchResultStable | app.py:98-115 | among the matches of one score, the answer keeps the first ones in resume order, in that order |
| Pagination.TotalPages | static/js/script.js:55 | `Math.ceil(n / 5)`: the fewest pages of five that hold `n` entries; 0 iff `n` is 0 |
| Pagination.Slice | static/js/script.js:85 | `Array.prototype.slice` with the bounds clipped to the list |
| Pagination.PageSlice | static/js/script.js:83-85 | at most five entries: the page's part of the list, or nothing past the end |
| Pagination.PrevOf | static/js/script.js:124-131 | one page back unless on the first |
| Pagination.NextOf | static/js/script.js:133-140 | one page on unless on the last |
| Pagination.SearchPage.constructor | static/js/script.js:12-15 | the script starts on page 1 of 1 with no candidates |
| Pagination.SearchPage.StartSearch | static/js/script.js:17-35 | a blank query sends nothing; any other resets `currentPage` to 1; nothing else changes |
| Pagination.SearchPage.DisplayCurrentPage | static/js/script.js:70-121 | no candidates: the warning, pagination hidden; otherwise the current page's entries with pagination shown |
| Pagination.SearchPage.UpdatePaginationControls | static/js/script.js:143-156 | prev is disabled iff `currentPage <= 1`; next is disabled iff `currentPage >= totalPages` |
| Pagination.SearchPage.ReceiveResultsAsWritten | static/js/script.js:51-57 | the candidates and `ceil(n / 5)` are taken; `currentPage` keeps whatever the buttons left |
| Pagination.SearchPage.ReceiveResults | static/js/script.js:51-57 | the first page of the new results is shown and the page numbers are in range |
| Pagination.SearchPage.PrevPage | static/js/script.js:124-131 | not on the first page: one page back, redrawn (the warning with the pagination hidden when there are no candidates, else that page with the pagination shown) and the buttons updated; on the first page nothing changes; the range invariant is kept |
| Pagination.SearchPage.NextPage | static/js/script.js:133-140 | not on the last page: one page on, redrawn (the warning with the pagination hidden when there are no candidates, else that page with the pagination shown) and the buttons updated; on the last page nothing changes; the range invariant is kept |
| Pagination.FavoriteButton.constructor | static/js/script.js:198-206 | the profile button with or without the outline class |
| Pagination.ToggleFavorite | static/js/script.js:160-207 | a button without a `data-id` sends nothing and changes nothing; otherwise a click on an outlined profile button sends `/add_favorite` twice, from the generic handler and from the toggle, leaves the favourites as one add and turns the button solid, and a solid one removes the id and turns outlined |
| Pagination.StepsStayInRange | static/js/script.js:124-140 | neither button leaves the range of pages |
| Pagination.NextPrevInverse | static/js/script.js:124-140 | next then previous, or previous then next, comes back |
| Pagination.PageOfEntry | static/js/script.js:83-85 | the i-th candidate is on page `i / 5 + 1` at place `i % 5`, and that page exists |
| Pagination.PagesAreFilled | static/js/script.js:83-85 | every reachable page is non-empty, and full unless it is the last |
| Pagination.DisabledMeansStuck | static/js/script.js:124-156 | a button is disabled exactly when its handler would not move |
| Pagination.ResultsAfterNextOverrun | static/js/script.js:51-57 | a "next" click while a search is pending can leave page 2 of 1, which shows nothing |
| Pagination.ToggleTwiceRestores | static/js/script.js:300-306 | two toggles of an id that was not a favourite restore the favourites |

## Findings

| source | as written | input that shows it | evidently intended | confidence | as-written member | corrected member |
|---|---|---|---|---|---|---|
| static/js/script.js:35-57 | `currentPage` is reset when "Найти" is clicked, before the request is sent; the response handler keeps whatever page the buttons left meanwhile | a previous search with 15 results (3 pages); click "Найти"; click "next" before the answer; the answer holds 4 results: page 2 of 1 is drawn, an empty list under a visible pagination bar | the new results are shown from page 1 | medium, not executed | Pagination.SearchPage.ReceiveResultsAsWritten, Pagination.ResultsAfterNextOverrun | Pagination.SearchPage.ReceiveResults |

## Left out

- Image enhancement (`deskew_image`, `remove_shadows_and_noise`, `enhance_contrast`, `scale_image`, process_resumes.py:56-89) is raster and floating-point work, outside this model.
- The PDF, DOCX and TXT readers (process_resumes.py:91-160) call PyMuPDF, Tesseract OCR, python-docx and chardet. What a reader returns, or the message it caught, is a parameter of `Ingest.ExtractText`.
- `process_files_in_folder` (process_resumes.py:180-214): the folder check, the thread pool and `as_completed` are not modelled. The results reach the saving loop in completion order, so `Ingest.SaveExtractedTexts` accepts them in any order. The extension filter itself is `Ingest.SupportedFiles`.
- `extract_name` (process_resumes.py:271-292) and the name-based gender guess (process_resumes.py:308-319) use named-entity and morphology libraries. Their results are parameters of `Record.ProcessResume`.
- `datetime.now()` is the parameter `now`. Only year and month are kept.
- File reads and writes, `json.dump`, logging, `tqdm` and `print` are not modelled. Whether a text file was read and whether its record was written is the `content` and `stored` of `Ids.Input`. The order of `os.listdir` is the order of the given listing.
- The sentence encoder and the cosine similarity (app.py:89-96) are not modelled. Each resume comes with its similarity and with its percentage `round(similarity * 100, 2)`, both as given values. The threshold 0.60 is compared as an exact real, not a binary float.
- `list.sort` is a library call, not code of the repository. It is modelled by its specification, a stable sort (`App.SortDesc`), and not as an in-place algorithm.
- Flask routing, templates, `session.modified`, the landing, history, profile and favourites pages are not modelled.
- The page script's DOM building, `fetch`, alerts and the handlers of the history and favourites list pages are not modelled. The server calls of `Pagination.ToggleFavorite` are modelled as synchronous calls, in the order they are sent.
- `str.lower()` and `re.IGNORECASE` are modelled with the ASCII and basic Cyrillic case pairs only. `\w` is modelled as ASCII and Cyrillic letters, digits and `_`. `\d` is modelled as the ASCII digits.
- Text.ParseInt: does not accept the surrounding whitespace, underscores or non-ASCII digits that Python's `int()` accepts, because the date tokens it reads never hold them.
- Ids.Written: its own contract states only that the files already in the output folder stay. Which files are added, and with what record, is stated by `Ids.WrittenKey` and `Ids.WrittenRecordAt`.
- Record.ResumeRecord: its own contract states the keys and the `id`. The other values are stated by `Record.RecordShape` and `Record.RecordOfField`.
- Experience.ParseDate: `datetime(year, month, 1)` rejects years outside 1-9999, and the model fails there too. Overflow of the month arithmetic cannot happen with unbounded integers.
