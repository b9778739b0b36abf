/**
 * Candidate ids (process_resumes.py:518-544).  The script lists the output
 * folder, reads the number in every `candidate*.json` name, starts numbering
 * after the largest, and writes one `candidate<id>.json` record per text file
 * in the order the files are enumerated.  The folder listing, what each read
 * and write did, and what the language tools guessed for each file come in as
 * values.
 */
module Ids {
  import opened Wrappers
  import opened Text
  import Record
  import Contacts
  import Experience
  import Clean

  const FilePrefix: string := "candidate"
  const FileSuffix: string := ".json"

  /** `f.startswith('candidate') and f.endswith('.json')`. */
  predicate IsCandidateFile(f: string) {
    StartsWith(f, FilePrefix) && EndsWith(f, FileSuffix)
  }

  // ---------------------------------------------------------------------
  // The number in a file name
  // ---------------------------------------------------------------------

  /** Where the leftmost digit at or after `p` is, or None when there is none. */
  function FirstDigitFrom(s: string, p: nat): (r: Option<nat>)
    requires p <= |s|
    ensures r.None? ==> forall k :: p <= k < |s| ==> !IsDigit(s[k])
    ensures r.Some? ==> p <= r.value < |s| && IsDigit(s[r.value])
    ensures r.Some? ==> forall k :: p <= k < r.value ==> !IsDigit(s[k])
    decreases |s| - p
  {
    if p == |s| then None
    else if IsDigit(s[p]) then Some(p)
    else FirstDigitFrom(s, p + 1)
  }

  /** `int(re.findall(r'\d+', s)[0])`: the value of the first run of digits,
      or None (the `IndexError` of `[0]`) when `s` holds no digit. */
  function FirstNumber(s: string): (r: Option<nat>)
    ensures r.None? <==> forall k :: 0 <= k < |s| ==> !IsDigit(s[k])
  {
    match FirstDigitFrom(s, 0)
    case None => None
    case Some(start) =>
      var n := RunLength(s, start, IsDigit);
      assert AllDigits(s[start..start + n]);
      Some(DigitsValue(s[start..start + n]))
  }

  /** `[int(re.findall(r'\d+', f)[0]) for f in names if <candidate file>]`,
      or None when a candidate file holds no digit and the script stops. */
  function ExistingIds(names: seq<string>): (r: Option<seq<nat>>)
    ensures r.None? <==> exists f :: f in names && IsCandidateFile(f) && FirstNumber(f).None?
    ensures r.Some? ==> forall f :: f in names && IsCandidateFile(f) ==> FirstNumber(f).value in r.value
    ensures r.Some? ==> forall e :: e in r.value ==>
      exists f :: f in names && IsCandidateFile(f) && FirstNumber(f) == Some(e)
  {
    if names == [] then Some([])
    else
      var rest := ExistingIds(names[1..]);
      assert forall f :: f in names <==> f == names[0] || f in names[1..];
      if !IsCandidateFile(names[0]) then rest
      else if FirstNumber(names[0]).None? || rest.None? then None
      else Some([FirstNumber(names[0]).value] + rest.value)
  }

  /** `max(ids) if ids else 0`. */
  function MaxOrZero(ids: seq<nat>): (m: nat)
    ensures forall e :: e in ids ==> e <= m
    ensures ids == [] ==> m == 0
    ensures ids != [] ==> m in ids
  {
    if ids == [] then 0
    else
      var r := MaxOrZero(ids[1..]);
      assert forall e :: e in ids ==> e == ids[0] || e in ids[1..];
      if ids[0] >= r then ids[0] else r
  }

  /** `current_max_id` for a listing of the output folder. */
  function CurrentMaxId(names: seq<string>): Option<nat> {
    match ExistingIds(names)
    case None => None
    case Some(ids) => Some(MaxOrZero(ids))
  }

  /** `start=current_max_id + 1`: the first id of the run. */
  function StartId(names: seq<string>): (r: Option<nat>)
    ensures r.Some? <==> ExistingIds(names).Some?
    ensures r.Some? ==> 1 <= r.value && forall id :: id in ExistingIds(names).value ==> id < r.value
  {
    match CurrentMaxId(names)
    case None => None
    case Some(m) => Some(m + 1)
  }

  /** `f"candidate{idx}.json"`. */
  function OutputName(id: nat): (r: string)
    ensures IsCandidateFile(r)
  {
    FilePrefix + NatToString(id) + FileSuffix
  }

  // ---------------------------------------------------------------------
  // The numbering loop
  // ---------------------------------------------------------------------

  /** One text file of the run: its name, what reading it gave (None when the
      read raised), the name and gender guess the language tools give for its
      text, and whether writing its JSON file succeeded. */
  datatype Input = Input(file: string, content: Option<string>, name: string, guess: Contacts.NameGender, stored: bool)

  /** The output folder once the loop has handled `inputs`, the i-th of them
      numbered `first + i` and turned into a record by `build` (text, id, name
      guess, gender guess): a file that could not be read is skipped but uses
      up its number. */
  function Written(inputs: seq<Input>, first: nat, out: map<string, Record.Dict>,
                      build: (string, int, string, Contacts.NameGender) -> Record.Dict): (r: map<string, Record.Dict>)
    ensures out.Keys <= r.Keys
    decreases |inputs|
  {
    if inputs == [] then out
    else
      var n := |inputs| - 1;
      var prior := Written(inputs[..n], first, out, build);
      var last := inputs[n];
      if last.content.Some? && last.stored then
        prior[OutputName(first + n) := build(last.content.value, first + n, last.name, last.guess)]
      else prior
  }

  /** `process_resume` with the date of the run fixed. */
  function Builder(now: Experience.Date): (string, int, string, Contacts.NameGender) -> Record.Dict {
    (text: string, id: int, name: string, guess: Contacts.NameGender) => Record.ResumeRecord(text, id, name, guess, now)
  }

  lemma BuilderIs(now: Experience.Date, text: string, id: int, name: string, guess: Contacts.NameGender)
    ensures Builder(now)(text, id, name, guess) == Record.ResumeRecord(text, id, name, guess, now)
  {
  }

  /** `for idx, txt_file in enumerate(txt_files, start=current_max_id + 1)`. */
  method ProcessFiles(inputs: seq<Input>, first: nat, now: Experience.Date, out: map<string, Record.Dict>)
    returns (written: map<string, Record.Dict>)
    ensures written == Written(inputs, first, out, Builder(now))
  {
    written := out;
    for i := 0 to |inputs|
      invariant written == Written(inputs[..i], first, out, Builder(now))
    {
      var idx := first + i;
      var input := inputs[i];
      if input.content.Some? {
        var record := Record.ProcessResume(input.content.value, idx, input.name, input.guess, now);
        BuilderIs(now, input.content.value, idx, input.name, input.guess);
        if input.stored {
          WrittenStepStored(inputs, i, first, idx, out, Builder(now), record);
          written := written[OutputName(idx) := record];
        } else {
          WrittenStepSkipped(inputs, i, first, out, Builder(now));
        }
      } else {
        WrittenStepSkipped(inputs, i, first, out, Builder(now));
      }
    }
    assert inputs[..|inputs|] == inputs;
  }

  /** The whole allocation: the current maximum id of the listing, then the
      numbering loop; None when a candidate file name holds no digit. */
  method AllocateAndProcess(listing: seq<string>, inputs: seq<Input>, now: Experience.Date, out: map<string, Record.Dict>)
    returns (r: Option<map<string, Record.Dict>>)
    ensures r.None? <==> exists f :: f in listing && IsCandidateFile(f) && FirstNumber(f).None?
    ensures r.Some? ==> r.value == Written(inputs, StartId(listing).value, out, Builder(now))
  {
    var start := StartId(listing);
    if start.None? {
      return None;
    }
    var written := ProcessFiles(inputs, start.value, now, out);
    r := Some(written);
  }

  lemma WrittenStepStored(inputs: seq<Input>, i: nat, first: nat, id: nat, out: map<string, Record.Dict>,
                          build: (string, int, string, Contacts.NameGender) -> Record.Dict, record: Record.Dict)
    requires i < |inputs| && inputs[i].content.Some? && inputs[i].stored && id == first + i
    requires record == build(inputs[i].content.value, id, inputs[i].name, inputs[i].guess)
    ensures Written(inputs[..i + 1], first, out, build)
      == Written(inputs[..i], first, out, build)[OutputName(id) := record]
  {
    assert inputs[..i + 1][..i] == inputs[..i];
  }

  lemma WrittenStepSkipped(inputs: seq<Input>, i: nat, first: nat, out: map<string, Record.Dict>,
                              build: (string, int, string, Contacts.NameGender) -> Record.Dict)
    requires i < |inputs| && !(inputs[i].content.Some? && inputs[i].stored)
    ensures Written(inputs[..i + 1], first, out, build) == Written(inputs[..i], first, out, build)
  {
    assert inputs[..i + 1][..i] == inputs[..i];
  }

  // ---------------------------------------------------------------------
  // Properties
  // ---------------------------------------------------------------------

  /** The number read from a name is the value of its first digit run: the
      characters before it are not digits and the run ends where a non-digit
      (or the end) follows. */
  lemma FirstNumberOf(before: string, digits: string, after: string)
    requires forall k :: 0 <= k < |before| ==> !IsDigit(before[k])
    requires digits != [] && AllDigits(digits)
    requires after == [] || !IsDigit(after[0])
    ensures FirstNumber(before + digits + after) == Some(DigitsValue(digits))
  {
    var s := before + digits + after;
    assert forall k :: 0 <= k < |before| ==> s[k] == before[k];
    assert forall k :: 0 <= k < |digits| ==> s[|before| + k] == digits[k];
    assert FirstDigitFrom(s, 0) == Some(|before|) by {
      FirstDigitAt(s, 0, |before|);
    }
    RunLengthIs(s, |before|, IsDigit, |digits|);
    assert s[|before|..|before| + |digits|] == digits;
  }

  lemma {:induction false} FirstDigitAt(s: string, p: nat, q: nat)
    requires p <= q < |s| && IsDigit(s[q])
    requires forall k :: p <= k < q ==> !IsDigit(s[k])
    ensures FirstDigitFrom(s, p) == Some(q)
    decreases q - p
  {
    if p < q {
      FirstDigitAt(s, p + 1, q);
    }
  }

  lemma PrefixHasNoDigit()
    ensures forall k :: 0 <= k < |FilePrefix| ==> !IsDigit(FilePrefix[k])
  {
  }

  /** The name a record is written under is a candidate file whose number is
      the record's id, so the next run reads that id back. */
  lemma OutputNameRoundTrip(id: nat)
    ensures IsCandidateFile(OutputName(id))
    ensures FirstNumber(OutputName(id)) == Some(id)
  {
    var digits := NatToString(id);
    var s := OutputName(id);
    PrefixHasNoDigit();
    FirstNumberOf(FilePrefix, digits, FileSuffix);
    NatToStringRoundTrip(id);
    assert s[..|FilePrefix|] == FilePrefix;
    assert s[|s| - |FileSuffix|..] == FileSuffix;
  }

  /** Different ids never share an output name. */
  lemma OutputNameInjective(a: nat, b: nat)
    requires OutputName(a) == OutputName(b)
    ensures a == b
  {
    OutputNameRoundTrip(a);
    OutputNameRoundTrip(b);
  }

  /** With no candidate file in the folder the numbering starts at 1. */
  lemma FirstRunStartsAtOne(listing: seq<string>)
    requires forall f :: f in listing ==> !IsCandidateFile(f)
    ensures StartId(listing) == Some(1)
  {
  }

  /** Every id the run hands out is larger than every id already in the folder,
      so no candidate file of an earlier run is overwritten. */
  lemma NewIdsAreFresh(listing: seq<string>, first: nat, i: nat)
    requires StartId(listing) == Some(first)
    ensures first >= 1
    ensures forall f :: f in listing && IsCandidateFile(f) ==> FirstNumber(f).value < first + i
    ensures OutputName(first + i) !in listing
  {
    if OutputName(first + i) in listing {
      OutputNameRoundTrip(first + i);
    }
  }

  /** The file at position `i` that was read and stored is in the folder under
      `candidate<first + i>.json`, holding the record built with that id. */
  lemma {:induction false} WrittenRecordAt(inputs: seq<Input>, first: nat, out: map<string, Record.Dict>,
                                              build: (string, int, string, Contacts.NameGender) -> Record.Dict, i: nat)
    requires i < |inputs| && inputs[i].content.Some? && inputs[i].stored
    ensures OutputName(first + i) in Written(inputs, first, out, build)
    ensures Written(inputs, first, out, build)[OutputName(first + i)]
      == build(inputs[i].content.value, first + i, inputs[i].name, inputs[i].guess)
    decreases |inputs|
  {
    var n := |inputs| - 1;
    if i < n {
      var prefix := inputs[..n];
      assert prefix[i] == inputs[i];
      WrittenRecordAt(prefix, first, out, build, i);
      if OutputName(first + n) == OutputName(first + i) {
        OutputNameInjective(first + n, first + i);
      }
    }
  }

  /** Everything the run adds to the folder is named after the position `i`
      of a file that was read and stored, holding what
      `build` made for that file with id `first + i`. */
  lemma {:induction false} WrittenKey(inputs: seq<Input>, first: nat, out: map<string, Record.Dict>,
                                      build: (string, int, string, Contacts.NameGender) -> Record.Dict, k: string)
    returns (i: nat)
    requires k in Written(inputs, first, out, build) && k !in out
    ensures i < |inputs| && inputs[i].content.Some? && inputs[i].stored
    ensures k == OutputName(first + i)
    ensures Written(inputs, first, out, build)[k]
      == build(inputs[i].content.value, first + i, inputs[i].name, inputs[i].guess)
    decreases |inputs|
  {
    var n := |inputs| - 1;
    var prefix := inputs[..n];
    var last := inputs[n];
    if last.content.Some? && last.stored && k == OutputName(first + n) {
      i := n;
    } else {
      WrittenEarlier(inputs, first, out, build, k);
      i := WrittenKey(prefix, first, out, build, k);
      assert prefix[i] == inputs[i];
    }
  }

  /** A key the last file did not write was already there before it. */
  lemma WrittenEarlier(inputs: seq<Input>, first: nat, out: map<string, Record.Dict>,
                       build: (string, int, string, Contacts.NameGender) -> Record.Dict, k: string)
    requires inputs != [] && k in Written(inputs, first, out, build)
    requires var last := inputs[|inputs| - 1];
      !(last.content.Some? && last.stored && k == OutputName(first + |inputs| - 1))
    ensures k in Written(inputs[..|inputs| - 1], first, out, build)
    ensures Written(inputs, first, out, build)[k] == Written(inputs[..|inputs| - 1], first, out, build)[k]
  {
  }

  /** `build` puts the id it is given into the record's "id" field. */
  ghost predicate StampsIds(build: (string, int, string, Contacts.NameGender) -> Record.Dict) {
    forall text, id, name, guess :: Record.Id in build(text, id, name, guess).fields
      && build(text, id, name, guess).fields[Record.Id] == Record.Num(id)
  }

  /** `process_resume` does: the record's "id" is the `candidate_id` it got. */
  lemma BuilderStampsIds(now: Experience.Date)
    ensures StampsIds(Builder(now))
  {
    forall text, id, name, guess
      ensures Record.Id in Builder(now)(text, id, name, guess).fields
      ensures Builder(now)(text, id, name, guess).fields[Record.Id] == Record.Num(id)
    {
      var x := Record.Extract(Clean.CleanText(text), guess, now);
      Record.RecordShape(x, id, name);
    }
  }

  /** So every record the run writes carries the id its file name holds. */
  lemma RecordIdMatchesName(inputs: seq<Input>, first: nat, out: map<string, Record.Dict>,
                            build: (string, int, string, Contacts.NameGender) -> Record.Dict, k: string)
    requires StampsIds(build)
    requires k in Written(inputs, first, out, build) && k !in out
    ensures FirstNumber(k).Some?
    ensures Record.Id in Written(inputs, first, out, build)[k].fields
    ensures Written(inputs, first, out, build)[k].fields[Record.Id] == Record.Num(FirstNumber(k).value)
  {
    var i := WrittenKey(inputs, first, out, build, k);
    OutputNameRoundTrip(first + i);
    var input := inputs[i];
    assert Written(inputs, first, out, build)[k] == build(input.content.value, first + i, input.name, input.guess);
  }

  /** The next run carries on the numbering: when the candidate files of the
      new listing are the old ones and names this run wrote (ids up to `top`),
      the next maximum is at most `top`, and exactly `top` once
      `candidate<top>.json` is among them. */
  lemma NextRunContinues(listing: seq<string>, base: nat, next: seq<string>, top: nat)
    requires CurrentMaxId(listing) == Some(base) && base <= top
    requires forall f :: f in next && IsCandidateFile(f) ==>
      f in listing || exists id :: base < id <= top && f == OutputName(id)
    ensures CurrentMaxId(next).Some? && CurrentMaxId(next).value <= top
    ensures OutputName(top) in next ==> CurrentMaxId(next) == Some(top)
  {
    forall f | f in next && IsCandidateFile(f)
      ensures FirstNumber(f).Some? && FirstNumber(f).value <= top
    {
      if f !in listing {
        var id :| base < id <= top && f == OutputName(id);
        OutputNameRoundTrip(id);
      }
    }
    assert ExistingIds(next).Some?;
    var ids := ExistingIds(next).value;
    var m := MaxOrZero(ids);
    if ids != [] {
      assert m in ids;
      var f :| f in next && IsCandidateFile(f) && FirstNumber(f) == Some(m);
      assert m <= top;
    }
    assert m <= top;
    if OutputName(top) in next {
      OutputNameRoundTrip(top);
      assert FirstNumber(OutputName(top)).value in ids;
      assert m == top;
    }
  }
}
