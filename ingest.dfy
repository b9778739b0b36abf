/**
 * Reading the uploaded files (process_resumes.py:168-240, 252): the dispatcher
 * `extract_text`, which picks a reader by the lower-cased extension; the
 * filter that lists the supported files of the upload folder; the loop that
 * saves every successfully extracted text as `<stem>.txt`; and the filter that
 * picks the `.txt` files to process.  The PDF, DOCX and TXT readers are foreign
 * code (PyMuPDF with OCR, python-docx, chardet): what a reader returns comes in
 * as a parameter.
 */
module Ingest {
  import opened Text

  // ---------------------------------------------------------------------
  // Paths
  // ---------------------------------------------------------------------

  /** `s.rfind(c)`: the index of the last `c` in `s`, or -1. */
  function LastIndexOf(s: string, c: char): (i: int)
    ensures -1 <= i < |s|
    ensures i >= 0 ==> s[i] == c
    ensures forall j :: i < j < |s| ==> s[j] != c
  {
    if s == [] then -1
    else if s[|s| - 1] == c then |s| - 1
    else LastIndexOf(s[..|s| - 1], c)
  }

  /** No character of `s` is `c`. */
  predicate Lacks(s: string, c: char) {
    forall k :: 0 <= k < |s| ==> s[k] != c
  }

  /** `os.path.basename(path)`: what follows the last '/'. */
  function Basename(path: string): (b: string)
    ensures Lacks(b, '/')
    ensures |b| <= |path| && b == path[|path| - |b|..]
  {
    var i := LastIndexOf(path, '/');
    path[i + 1..]
  }

  /** The extension of a base name: from its last '.', provided a character
      other than '.' comes before that dot (so ".profile" has none). */
  function NameExt(name: string): (e: string)
    ensures e == [] || (e[0] == '.' && Lacks(e[1..], '.'))
    ensures |e| <= |name| && e == name[|name| - |e|..]
  {
    var d := LastIndexOf(name, '.');
    if d >= 0 && exists k :: 0 <= k < d && name[k] != '.' then
      name[d..]
    else []
  }

  /** `os.path.splitext(path)`: the extension of the base name, and the rest. */
  function SplitExt(path: string): (r: (string, string))
    ensures r.0 + r.1 == path
    ensures r.1 == NameExt(Basename(path))
  {
    var e := NameExt(Basename(path));
    SuffixOfSuffix(path, Basename(path), e);
    SplitAt(path, |path| - |e|);
    (path[..|path| - |e|], e)
  }

  lemma SuffixOfSuffix(s: string, b: string, e: string)
    requires |b| <= |s| && b == s[|s| - |b|..]
    requires |e| <= |b| && e == b[|b| - |e|..]
    ensures e == s[|s| - |e|..]
  {
    assert forall k :: 0 <= k < |e| ==> e[k] == b[|b| - |e| + k] == s[|s| - |e| + k];
  }

  /** `os.path.join(folder, name)` for a relative `name`. */
  function JoinPath(folder: string, name: string): string {
    if folder == [] || folder[|folder| - 1] == '/' then folder + name else folder + "/" + name
  }

  // ---------------------------------------------------------------------
  // extract_text
  // ---------------------------------------------------------------------

  const UnsupportedMarker: string := "Неподдерживаемый формат файла"
  const ErrorPrefix: string := "Ошибка при обработке"

  const PdfExt: string := ".pdf"
  const DocxExt: string := ".docx"
  const TxtExt: string := ".txt"

  datatype Format = Pdf | Docx | Txt | Unsupported

  /** The reader for a lower-cased extension. */
  function FormatOfExt(ext: string): Format {
    if ext == PdfExt then Pdf else if ext == DocxExt then Docx else if ext == TxtExt then Txt else Unsupported
  }

  /** The reader `extract_text` picks by the lower-cased extension. */
  function FormatOf(path: string): Format {
    FormatOfExt(LowerStr(SplitExt(path).1))
  }

  /** What a reader did: the text it extracted, or the message of the
      exception it caught. */
  datatype ReadOutcome = Read(text: string) | Failed(message: string)

  /** How each reader names its format in its error text. */
  function FormatLabel(f: Format): string {
    match f
    case Pdf => "PDF"
    case Docx => "DOCX"
    case Txt => "TXT"
    case Unsupported => ""
  }

  /** The texts the saving loop refuses to write: a reader's error text or the
      unsupported-format marker. */
  predicate Skipped(text: string) {
    StartsWith(text, ErrorPrefix) || text == UnsupportedMarker
  }

  /** `extract_text(path)`, given what the reader of the file's format returns. */
  function ExtractText(path: string, outcome: ReadOutcome): (r: (string, string))
    ensures r.0 == Basename(path)
    ensures FormatOf(path) == Unsupported ==> r.1 == UnsupportedMarker
    ensures FormatOf(path) != Unsupported ==> (outcome.Read? ==> r.1 == outcome.text) && (outcome.Failed? ==> Skipped(r.1))
  {
    var name := Basename(path);
    var format := FormatOf(path);
    if format == Unsupported then (name, UnsupportedMarker)
    else
      match outcome
      case Read(text) => (name, text)
      case Failed(message) =>
        var t := ErrorPrefix + (" " + FormatLabel(format) + ": " + message);
        PrefixOfAppend(ErrorPrefix, " " + FormatLabel(format) + ": " + message);
        (name, t)
  }

  // ---------------------------------------------------------------------
  // The supported-extension filter and the .txt filter
  // ---------------------------------------------------------------------

  const SupportedExtensions: seq<string> := [PdfExt, DocxExt, TxtExt]

  predicate IsSupported(name: string) {
    LowerStr(SplitExt(name).1) in SupportedExtensions
  }

  /** `[os.path.join(folder, f) for f in names if splitext(f)[1].lower() in supported]`. */
  function SupportedFiles(folder: string, names: seq<string>): (files: seq<string>)
    ensures |files| <= |names|
    ensures forall f :: f in files <==> exists n :: n in names && IsSupported(n) && f == JoinPath(folder, n)
    decreases |names|
  {
    if names == [] then []
    else (if IsSupported(names[0]) then [JoinPath(folder, names[0])] else []) + SupportedFiles(folder, names[1..])
  }

  /** `f.lower().endswith('.txt')`. */
  predicate IsTxtName(f: string) {
    EndsWith(LowerStr(f), ".txt")
  }

  /** `[f for f in names if f.lower().endswith('.txt')]`. */
  function TxtFiles(names: seq<string>): (r: seq<string>)
    ensures forall i :: 0 <= i < |r| ==> IsTxtName(r[i]) && r[i] in names
    ensures forall f :: f in names && IsTxtName(f) ==> f in r
  {
    if names == [] then [] else (if IsTxtName(names[0]) then [names[0]] else []) + TxtFiles(names[1..])
  }

  // ---------------------------------------------------------------------
  // Saving the extracted texts
  // ---------------------------------------------------------------------

  /** `os.path.splitext(filename)[0] + '.txt'`. */
  function TextFileName(filename: string): string {
    SplitExt(filename).0 + ".txt"
  }

  /** The text folder after the loop has handled `results` in order: a later
      text saved under the same name replaces the earlier one. */
  function Saved(results: seq<(string, string)>, folder: map<string, string>): (r: map<string, string>)
    ensures folder.Keys <= r.Keys
    ensures forall k :: k in r && (k !in folder || r[k] != folder[k]) ==>
      exists i :: 0 <= i < |results| && !Skipped(results[i].1) && k == TextFileName(results[i].0)
    decreases |results|
  {
    if results == [] then folder
    else
      var prior := Saved(results[..|results| - 1], folder);
      var last := results[|results| - 1];
      if Skipped(last.1) then prior else prior[TextFileName(last.0) := last.1]
  }

  /** The loop over `extracted_texts` that writes each text to the folder. */
  method SaveExtractedTexts(results: seq<(string, string)>, folder: map<string, string>)
    returns (saved: map<string, string>)
    ensures saved == Saved(results, folder)
  {
    saved := folder;
    var i := 0;
    while i < |results|
      invariant 0 <= i <= |results|
      invariant saved == Saved(results[..i], folder)
    {
      var (filename, text) := results[i];
      SavedStep(results, i, folder);
      if Skipped(text) {
        i := i + 1;
        continue;
      }
      var textFilename := TextFileName(filename);
      saved := saved[textFilename := text];
      i := i + 1;
    }
    assert results[..i] == results;
  }

  lemma PrefixOfAppend(a: string, b: string)
    ensures StartsWith(a + b, a)
  {
    assert (a + b)[..|a|] == a;
  }

  /** One more result: the folder as it was, or with that result's text
      written under its `.txt` name. */
  lemma SavedStep(results: seq<(string, string)>, i: nat, folder: map<string, string>)
    requires i < |results|
    ensures Saved(results[..i + 1], folder)
      == if Skipped(results[i].1) then Saved(results[..i], folder)
         else Saved(results[..i], folder)[TextFileName(results[i].0) := results[i].1]
  {
    assert results[..i + 1][..i] == results[..i];
  }

  // ---------------------------------------------------------------------
  // Properties
  // ---------------------------------------------------------------------

  /** Characters other than `c` at the end do not move the last `c`. */
  lemma {:induction false} LastIndexOfAppend(a: string, b: string, c: char)
    requires Lacks(b, c)
    ensures LastIndexOf(a + b, c) == LastIndexOf(a, c)
    decreases |b|
  {
    if b != [] {
      assert (a + b)[..|a + b| - 1] == a + b[..|b| - 1];
      assert (a + b)[|a + b| - 1] == b[|b| - 1] != c;
      assert Lacks(b[..|b| - 1], c);
      LastIndexOfAppend(a, b[..|b| - 1], c);
    } else {
      assert a + b == a;
    }
  }

  /** A name listed in a folder keeps its base name once joined to the folder. */
  lemma BasenameOfJoin(folder: string, name: string)
    requires Lacks(name, '/')
    ensures Basename(JoinPath(folder, name)) == name
  {
    var p := JoinPath(folder, name);
    var pre := if folder == [] || folder[|folder| - 1] == '/' then folder else folder + "/";
    assert p == pre + name;
    LastIndexOfAppend(pre, name, '/');
    assert pre == [] || pre[|pre| - 1] == '/';
    assert LastIndexOf(pre, '/') == |pre| - 1;
    assert p[|pre|..] == name;
  }

  /** A name made of a stem with a character other than '.', and an extension
      that starts with its only dot, splits into that stem and extension. */
  lemma SplitExtOfName(stem: string, ext: string)
    requires Lacks(stem, '/') && Lacks(ext, '/')
    requires ext != [] && ext[0] == '.' && Lacks(ext[1..], '.')
    requires exists k :: 0 <= k < |stem| && stem[k] != '.'
    ensures SplitExt(stem + ext) == (stem, ext)
  {
    var name := stem + ext;
    assert Lacks(name, '/') by {
      assert forall k :: 0 <= k < |name| ==> name[k] == (if k < |stem| then stem[k] else ext[k - |stem|]);
    }
    assert LastIndexOf(name, '/') == -1;
    assert Basename(name) == name;
    assert LastIndexOf(name, '.') == |stem| by {
      assert name == (stem + [ext[0]]) + ext[1..];
      LastIndexOfAppend(stem + [ext[0]], ext[1..], '.');
    }
    var k :| 0 <= k < |stem| && stem[k] != '.';
    assert name[k] != '.';
    assert name[|stem|..] == ext;
    assert NameExt(name) == ext;
  }

  /** Extensions are compared without regard to case: two names with the
      same stem whose extensions differ only in case ("CV.PDF", "CV.pdf") go
      to the same reader. */
  lemma ExtensionCaseIgnored(stem: string, e1: string, e2: string)
    requires Lacks(stem, '/') && exists k :: 0 <= k < |stem| && stem[k] != '.'
    requires Lacks(e1, '/') && e1 != [] && e1[0] == '.' && Lacks(e1[1..], '.')
    requires Lacks(e2, '/') && e2 != [] && e2[0] == '.' && Lacks(e2[1..], '.')
    requires LowerStr(e1) == LowerStr(e2)
    ensures FormatOf(stem + e1) == FormatOf(stem + e2)
  {
    SplitExtOfName(stem, e1);
    SplitExtOfName(stem, e2);
  }

  /** Every file the folder filter lists goes to a reader: none of them
      yields the unsupported-format marker. */
  lemma {:induction false} SupportedFilesHaveReaders(folder: string, names: seq<string>)
    requires forall n :: n in names ==> Lacks(n, '/')
    ensures forall f :: f in SupportedFiles(folder, names) ==> FormatOf(f) != Unsupported
    decreases |names|
  {
    if names != [] {
      assert names[0] in names;
      SupportedFilesHaveReaders(folder, names[1..]);
      if IsSupported(names[0]) {
        SupportedHasReader(folder, names[0]);
      }
    }
  }

  lemma SupportedExtensionHasReader(e: string)
    requires e in SupportedExtensions
    ensures FormatOfExt(e) != Unsupported
  {
  }

  lemma SupportedHasReader(folder: string, name: string)
    requires Lacks(name, '/') && IsSupported(name)
    ensures FormatOf(JoinPath(folder, name)) != Unsupported
  {
    var p := JoinPath(folder, name);
    BasenameOfJoin(folder, name);
    assert LastIndexOf(name, '/') == -1;
    assert Basename(name) == name;
    var e := LowerStr(NameExt(name));
    assert SplitExt(name).1 == NameExt(name);
    assert SplitExt(p).1 == NameExt(name);
    assert e in SupportedExtensions;
    assert FormatOf(p) == FormatOfExt(e);
    SupportedExtensionHasReader(e);
  }

  /** Nothing that failed is written: every text the loop adds to the folder
      is one that was not skipped. */
  lemma {:induction false} SavedTextsAreNotSkipped(results: seq<(string, string)>, folder: map<string, string>)
    requires forall k :: k in folder ==> !Skipped(folder[k])
    ensures forall k :: k in Saved(results, folder) ==> !Skipped(Saved(results, folder)[k])
    decreases |results|
  {
    if results != [] {
      SavedTextsAreNotSkipped(results[..|results| - 1], folder);
    }
  }

  /** Every file the loop adds passes the `.txt` filter that picks the texts
      to process. */
  lemma {:induction false} SavedNamesAreTxt(results: seq<(string, string)>, folder: map<string, string>)
    ensures forall k :: k in Saved(results, folder) && k !in folder ==> IsTxtName(k)
    decreases |results|
  {
    if results != [] {
      SavedNamesAreTxt(results[..|results| - 1], folder);
      var name := TextFileName(results[|results| - 1].0);
      TxtNameIsTxt(SplitExt(results[|results| - 1].0).0);
    }
  }

  lemma TxtNameIsTxt(stem: string)
    ensures IsTxtName(stem + ".txt")
  {
    var l := LowerStr(stem + ".txt");
    assert l[|l| - 4..] == ".txt";
  }

  /** A text that was extracted and not skipped is in the folder under its
      `.txt` name unless a later result of the same name replaced it. */
  lemma {:induction false} SavedLastWins(results: seq<(string, string)>, folder: map<string, string>, i: nat)
    requires i < |results| && !Skipped(results[i].1)
    requires forall j :: i < j < |results| && !Skipped(results[j].1) ==> TextFileName(results[j].0) != TextFileName(results[i].0)
    ensures TextFileName(results[i].0) in Saved(results, folder)
    ensures Saved(results, folder)[TextFileName(results[i].0)] == results[i].1
    decreases |results|
  {
    var prefix := results[..|results| - 1];
    if i < |results| - 1 {
      assert prefix[i] == results[i];
      assert forall j :: i < j < |prefix| ==> prefix[j] == results[j];
      SavedLastWins(prefix, folder, i);
      SavedKeepsOthers(results, folder, TextFileName(results[i].0));
    } else {
      SavedStep(results, i, folder);
      assert results[..i + 1] == results;
    }
  }

  lemma SavedKeepsOthers(results: seq<(string, string)>, folder: map<string, string>, key: string)
    requires results != [] && key in Saved(results[..|results| - 1], folder)
    requires var last := results[|results| - 1]; !Skipped(last.1) ==> TextFileName(last.0) != key
    ensures key in Saved(results, folder)
    ensures Saved(results, folder)[key] == Saved(results[..|results| - 1], folder)[key]
  {
  }

  /** So a supported file that its reader read is saved under its stem with
      ".txt", holding the text read, unless the text itself begins like an
      error message or a later file has the same stem. */
  lemma ReadFileIsSaved(path: string, text: string, folder: map<string, string>)
    requires FormatOf(path) != Unsupported && !Skipped(text)
    ensures var r := ExtractText(path, Read(text));
      Saved([r], folder) == folder[TextFileName(Basename(path)) := text]
  {
    var r := ExtractText(path, Read(text));
    assert [r][..0] == [];
  }

  /** A failed read or an unsupported file leaves the folder as it was. */
  lemma FailedFileIsNotSaved(path: string, outcome: ReadOutcome, folder: map<string, string>)
    requires FormatOf(path) == Unsupported || outcome.Failed?
    ensures Saved([ExtractText(path, outcome)], folder) == folder
  {
    var r := ExtractText(path, outcome);
    assert [r][..0] == [];
  }
}
