/**
 * The field-extraction engine `clean_and_parse` of app.py: one forward pass
 * over the OCR lines that classifies each line by the first rule that applies
 * (patient label, doctor line, frequency line, buffer fragment) and builds a
 * prescription record.
 *
 * `Step`, `RunTo` and `Parse` state the pass line by line as functions;
 * `CleanAndParse` is the loop itself, proved to compute `Parse`.
 */
module Parser {
  import opened Strings
  import opened Matchers

  datatype Medicine = Medicine(name: string, dosage: string, frequency: string)

  datatype Record = Record(patientName: string, doctorName: string, medicines: seq<Medicine>)

  /** What the pass carries from one line to the next. */
  datatype State = State(usedIndices: set<int>, nameBuffer: seq<string>, data: Record)

  const NotFound := "Not Found"

  /** Words that are never part of a medicine name. */
  const IgnoreKeywords: seq<string> :=
    ["AGE", "DATE", "MBBS", "HOSPITAL", "CITY", "SEX", "GENDER", "RX", "HISTORY", "PT", "NME", "NAME"]

  /** Upper-cased lines that introduce the patient's name. */
  const PatientLabels: seq<string> := ["PT", "NAME", "PATIENT", "P NME"]

  /** Upper-cased lines the patient lookahead skips over. */
  const BareNameLabels: seq<string> := ["NME:", "NAME:", "NME"]

  /** Upper-cased buffer fragments dropped when a medicine is assembled. */
  const FormWords: seq<string> := ["TAB", "CAP", "T", "C"]

  /** Upper-cased lines that are never buffered. */
  const BufferFormWords: seq<string> := ["TAB", "CAP"]

  const Initial := State({}, [], Record(NotFound, NotFound, []))

  // ---------------------------------------------------------------------------
  // Splitting the OCR text into lines
  // ---------------------------------------------------------------------------

  /** Each piece stripped, and the pieces that come out empty dropped, in order. */
  function CleanLines(pieces: seq<string>): (r: seq<string>)
    ensures |r| <= |pieces|
    ensures forall k :: 0 <= k < |r| ==> r[k] != "" && NoEdge(r[k], Whitespace)
    ensures (forall k :: 0 <= k < |pieces| ==> '\n' !in pieces[k]) ==>
      forall k :: 0 <= k < |r| ==> '\n' !in r[k]
  {
    if pieces == [] then []
    else
      var line := Strip(pieces[0]);
      StripChars(pieces[0], Whitespace);
      (if line == "" then [] else [line]) + CleanLines(pieces[1..])
  }

  /** The lines of the OCR text: split on line feeds, stripped, empty ones dropped. */
  function Lines(rawText: string): (r: seq<string>)
    ensures forall k :: 0 <= k < |r| ==> r[k] != "" && NoEdge(r[k], Whitespace) && '\n' !in r[k]
  {
    SplitPiecesFree(rawText, "\n");
    CleanLines(SplitOn(rawText, "\n"))
  }

  /** Lines that are already non-empty and stripped are all kept, unchanged and in order. */
  lemma {:induction false} CleanLinesKeepsClean(pieces: seq<string>)
    requires forall k :: 0 <= k < |pieces| ==> pieces[k] != "" && NoEdge(pieces[k], Whitespace)
    ensures CleanLines(pieces) == pieces
  {
    if pieces != [] {
      StripClassSpec(pieces[0], Whitespace);
      CleanLinesKeepsClean(pieces[1..]);
      assert [pieces[0]] + pieces[1..] == pieces;
    }
  }

  /**
   * The round trip: any sequence of lines of the shape `Lines` produces,
   * joined with line feeds, is split back into exactly those lines.
   */
  lemma LinesRoundTrip(ls: seq<string>)
    requires forall k :: 0 <= k < |ls| ==> ls[k] != "" && NoEdge(ls[k], Whitespace) && '\n' !in ls[k]
    ensures Lines(Join(ls, "\n")) == ls
  {
    if ls == [] {
      assert SplitOn("", "\n") == [""];
      StripClassSpec("", Whitespace);
    } else {
      SplitJoin(ls, "\n");
      CleanLinesKeepsClean(ls);
    }
  }

  // ---------------------------------------------------------------------------
  // Rule 1: patient name
  // ---------------------------------------------------------------------------

  predicate IsPatientLabel(lineUpper: string)
  {
    lineUpper in PatientLabels
  }

  /** The candidate with every character that is not an ASCII letter or whitespace removed, then stripped. */
  function PatientName(candidate: string): (r: string)
    ensures NoEdge(r, Whitespace)
  {
    Strip(KeepLettersAndSpaces(candidate))
  }

  /** A patient name holds only letters and whitespace. */
  lemma PatientNameLetters(candidate: string)
    ensures forall k :: 0 <= k < |PatientName(candidate)| ==>
      IsAsciiLetter(PatientName(candidate)[k]) || IsSpace(PatientName(candidate)[k])
  {
    var letters := KeepLettersAndSpaces(candidate);
    KeepLettersAndSpacesSpec(candidate);
    StripChars(letters, Whitespace);
    assert forall k :: 0 <= k < |Strip(letters)| ==> Strip(letters)[k] in letters;
  }

  /**
   * The lookahead after a patient label at line `i`, from `offset` on: bare
   * labels are marked used and skipped, the first other line gives the name
   * and is marked used, and the window ends at offset 2.
   */
  function Lookahead(lines: seq<string>, i: nat, offset: nat, used: set<int>, patient: string)
    : (r: (set<int>, string))
    requires i < |lines| && 1 <= offset <= 3
    ensures used <= r.0
    ensures forall v :: v in r.0 && v !in used ==> i + offset <= v <= i + 2 && v < |lines|
    decreases 3 - offset
  {
    if offset == 3 then (used, patient)
    else if i + offset < |lines| then
      var candidate := lines[i + offset];
      if Upper(candidate) in BareNameLabels then
        Lookahead(lines, i, offset + 1, used + {i + offset}, patient)
      else
        (used + {i + offset}, PatientName(candidate))
    else
      Lookahead(lines, i, offset + 1, used, patient)
  }

  // ---------------------------------------------------------------------------
  // Rule 2: doctor name
  // ---------------------------------------------------------------------------

  predicate IsDoctorLine(lineUpper: string)
  {
    Contains(lineUpper, "DR.") || Contains(lineUpper, "DR:") || Contains(lineUpper, "DOCTOR")
  }

  /** The stripped text after the last colon of the line, or the whole line when it has no colon. */
  function DoctorValue(line: string): (r: string)
    ensures ':' !in r
  {
    SplitLastPiece(line, ":");
    if ':' in line then Strip(Last(SplitOn(line, ":"))) else line
  }

  /** The doctor value is made of characters of the line. */
  lemma DoctorValueChars(line: string)
    ensures forall c :: c in DoctorValue(line) ==> c in line
  {
    SplitLastPiece(line, ":");
    StripChars(Last(SplitOn(line, ":")), Whitespace);
    assert forall x :: x in Last(SplitOn(line, ":")) ==> x in line;
  }

  /**
   * The text after the last colon (or the whole line), with `MBBS`, `Dr.` and
   * `Dr:` removed (case-sensitively) and whitespace stripped.
   */
  function DoctorName(line: string): (r: string)
    ensures ':' !in r
    ensures NoEdge(r, Whitespace)
  {
    var value := DoctorValue(line);
    var a := ReplaceAll(value, "MBBS", "");
    var b := ReplaceAll(a, "Dr.", "");
    var c := ReplaceAll(b, "Dr:", "");
    ReplaceChars(value, "MBBS", "");
    ReplaceChars(a, "Dr.", "");
    ReplaceChars(b, "Dr:", "");
    StripChars(c, Whitespace);
    Strip(c)
  }

  /** The doctor name is made of characters of the line. */
  lemma DoctorNameChars(line: string)
    ensures forall c :: c in DoctorName(line) ==> c in line
  {
    var value := DoctorValue(line);
    var a := ReplaceAll(value, "MBBS", "");
    var b := ReplaceAll(a, "Dr.", "");
    var c := ReplaceAll(b, "Dr:", "");
    DoctorValueChars(line);
    ReplaceChars(value, "MBBS", "");
    ReplaceChars(a, "Dr.", "");
    ReplaceChars(b, "Dr:", "");
    StripChars(c, Whitespace);
  }

  // ---------------------------------------------------------------------------
  // Rule 3: medicine assembly
  // ---------------------------------------------------------------------------

  /** A buffer fragment that is a label or a bare dosage form. */
  predicate IsDroppedFragment(item: string)
  {
    Upper(item) in IgnoreKeywords || Upper(item) in FormWords
  }

  /** The buffer without label and dosage-form fragments, in order. */
  function Cleaned(buffer: seq<string>): (r: seq<string>)
    ensures |r| <= |buffer|
  {
    if buffer == [] then []
    else Cleaned(buffer[..|buffer| - 1]) + (if IsDroppedFragment(Last(buffer)) then [] else [Last(buffer)])
  }

  /** A fragment is in the cleaned buffer exactly when it is in the buffer and is not dropped. */
  lemma {:induction false} CleanedMembers(buffer: seq<string>)
    ensures forall x :: x in Cleaned(buffer) <==> x in buffer && !IsDroppedFragment(x)
    ensures Cleaned(buffer) == [] <==> forall x :: x in buffer ==> IsDroppedFragment(x)
  {
    if buffer != [] {
      CleanedMembers(buffer[..|buffer| - 1]);
      assert buffer == buffer[..|buffer| - 1] + [Last(buffer)];
    }
  }

  /** The filter keeps order and multiplicity: cleaning a concatenation concatenates the cleaned parts. */
  lemma {:induction false} CleanedConcat(a: seq<string>, b: seq<string>)
    ensures Cleaned(a + b) == Cleaned(a) + Cleaned(b)
    decreases |b|
  {
    if b == [] {
      assert a + b == a;
    } else {
      assert (a + b)[..|a + b| - 1] == a + b[..|b| - 1];
      assert Last(a + b) == Last(b);
      CleanedConcat(a, b[..|b| - 1]);
    }
  }


  /** The cleaned fragments joined with single spaces, then stripped. */
  function FullText(cleaned: seq<string>): string
  {
    Strip(Join(cleaned, " "))
  }

  /** The name before the final comma strip: dosage text removed, dosage-form prefix removed, stripped. */
  function NameText(fullText: string): string
  {
    var rest :=
      match FindDosage(fullText)
      case None => fullText
      case Some(m) => Strip(ReplaceAll(fullText, fullText[m.start..m.end], ""));
    Strip(StripFormPrefix(rest))
  }

  /** The normalised dosage, `""` when the text has no digit. */
  function DosageText(fullText: string): string
  {
    match FindDosage(fullText)
    case None => ""
    case Some(m) => NormalizeDosage(fullText[m.start..m.end])
  }

  /** The dosage is empty exactly when the text has no digit, and it is lower-case. */
  lemma DosageTextSpec(fullText: string)
    ensures DosageText(fullText) == "" <==> forall k :: 0 <= k < |fullText| ==> !IsDigit(fullText[k])
    ensures forall k :: 0 <= k < |DosageText(fullText)| ==> !IsUpperLetter(DosageText(fullText)[k])
  {
    FindDosageSpec(fullText);
    match FindDosage(fullText)
    case None =>
    case Some(m) => NormalizeDosageLower(fullText[m.start..m.end]);
  }

  /**
   * The medicine a frequency line produces from the cleaned buffer, or
   * nothing when the name comes out empty.
   */
  function Assemble(cleaned: seq<string>, frequencyText: string): (r: Option<Medicine>)
    ensures r.None? <==> NameText(FullText(cleaned)) == ""
    ensures r.Some? ==> r.value.dosage == DosageText(FullText(cleaned))
    ensures r.Some? ==> ' ' !in r.value.frequency
    ensures r.Some? && Matches(frequencyText, FrequencyPattern) ==> Matches(r.value.frequency, FrequencyPattern)
    ensures r.Some? ==> NoEdge(r.value.name, Commas)
  {
    var fullText := FullText(cleaned);
    var medName := NameText(fullText);
    ReplaceCharIsRemove(frequencyText, ' ');
    MatchesRemoveSpaces(frequencyText, FrequencyPattern);
    if medName == "" then None
    else Some(Medicine(StripClass(medName, Commas), DosageText(fullText), ReplaceAll(frequencyText, " ", "")))
  }

  // ---------------------------------------------------------------------------
  // The pass
  // ---------------------------------------------------------------------------

  /** Rule 4: the line goes into the buffer. */
  predicate IsBuffered(line: string, data: Record)
  {
    Upper(line) !in IgnoreKeywords && Upper(line) !in BufferFormWords &&
    line != data.patientName && line != data.doctorName
  }

  /** Processing line `i`. */
  function Step(lines: seq<string>, i: nat, st: State): State
    requires i < |lines|
  {
    if i in st.usedIndices then st
    else
      var line := lines[i];
      var lineUpper := Upper(line);
      if IsPatientLabel(lineUpper) then
        var look := Lookahead(lines, i, 1, st.usedIndices, st.data.patientName);
        st.(usedIndices := look.0, data := st.data.(patientName := look.1))
      else if IsDoctorLine(lineUpper) then
        st.(data := st.data.(doctorName := DoctorName(line)))
      else
        match FindFrequency(line)
        case Some(f) =>
          var med := Assemble(Cleaned(st.nameBuffer), line[f.start..f.end]);
          var medicines := if med.Some? then st.data.medicines + [med.value] else st.data.medicines;
          st.(nameBuffer := [], data := st.data.(medicines := medicines))
        case None =>
          if IsBuffered(line, st.data) then st.(nameBuffer := st.nameBuffer + [line]) else st
  }

  /** The state after the first `n` lines. */
  function RunTo(lines: seq<string>, n: nat): State
    requires n <= |lines|
  {
    if n == 0 then Initial else Step(lines, n - 1, RunTo(lines, n - 1))
  }

  /** The record the pass produces. */
  function Parse(lines: seq<string>): Record
  {
    RunTo(lines, |lines|).data
  }

  // ---------------------------------------------------------------------------
  // The loops
  // ---------------------------------------------------------------------------

  /** The loop that filters the name buffer (app.py:82-88). */
  method CleanBuffer(nameBuffer: seq<string>) returns (cleanedBuffer: seq<string>)
    ensures cleanedBuffer == Cleaned(nameBuffer)
  {
    cleanedBuffer := [];
    for j := 0 to |nameBuffer|
      invariant cleanedBuffer == Cleaned(nameBuffer[..j])
    {
      assert nameBuffer[..j + 1][..j] == nameBuffer[..j];
      var item := nameBuffer[j];
      var itemUp := Upper(item);
      if itemUp in IgnoreKeywords || itemUp in FormWords {
        continue;
      }
      cleanedBuffer := cleanedBuffer + [item];
    }
    assert nameBuffer[..|nameBuffer|] == nameBuffer;
  }

  /** The lookahead loop after a patient label at line `i` (app.py:59-69). */
  method LookAheadForName(lines: seq<string>, i: nat, usedIndices: set<int>, patientName: string)
    returns (used: set<int>, patient: string)
    requires i < |lines|
    ensures (used, patient) == Lookahead(lines, i, 1, usedIndices, patientName)
  {
    used, patient := usedIndices, patientName;
    for offset := 1 to 3
      invariant Lookahead(lines, i, offset, used, patient) == Lookahead(lines, i, 1, usedIndices, patientName)
    {
      if i + offset < |lines| {
        var candidate := lines[i + offset];
        if Upper(candidate) in BareNameLabels {
          used := used + {i + offset};
          continue;
        }
        patient := PatientName(candidate);
        used := used + {i + offset};
        break;
      }
    }
  }

  /** The medicine assembled when line `line` holds a frequency match (app.py:82-113). */
  method AssembleMedicine(nameBuffer: seq<string>, line: string, freqMatch: Span)
    returns (med: Option<Medicine>)
    requires freqMatch.start <= freqMatch.end <= |line|
    ensures med == Assemble(Cleaned(nameBuffer), line[freqMatch.start..freqMatch.end])
  {
    var cleanedBuffer := CleanBuffer(nameBuffer);
    var fullText := Strip(Join(cleanedBuffer, " "));
    var dosageMatch := FindDosage(fullText);
    var cleanDosage := "";
    var medName := fullText;
    if dosageMatch.Some? {
      var dosageStr := fullText[dosageMatch.value.start..dosageMatch.value.end];
      cleanDosage := NormalizeDosage(dosageStr);
      medName := Strip(ReplaceAll(fullText, dosageStr, ""));
    }
    medName := Strip(StripFormPrefix(medName));
    if medName != "" {
      var frequency := ReplaceAll(line[freqMatch.start..freqMatch.end], " ", "");
      med := Some(Medicine(StripClass(medName, Commas), cleanDosage, frequency));
    } else {
      med := None;
    }
  }

  /** The whole pass over the lines of `rawText`, as the source loop runs it. */
  method CleanAndParse(rawText: string) returns (data: Record)
    ensures data == Parse(Lines(rawText))
  {
    var lines := Lines(rawText);
    data := Record(NotFound, NotFound, []);
    var nameBuffer: seq<string> := [];
    var usedIndices: set<int> := {};

    for i := 0 to |lines|
      invariant State(usedIndices, nameBuffer, data) == RunTo(lines, i)
    {
      ghost var before := State(usedIndices, nameBuffer, data);
      assert RunTo(lines, i + 1) == Step(lines, i, before);
      if i !in usedIndices {
        var line := lines[i];
        var lineUpper := Upper(line);
        if lineUpper in PatientLabels {
          // 1. Patient name, looked for on the next two lines
          var patient;
          usedIndices, patient := LookAheadForName(lines, i, usedIndices, data.patientName);
          data := data.(patientName := patient);
        } else if IsDoctorLine(lineUpper) {
          // 2. Doctor name
          data := data.(doctorName := DoctorName(line));
        } else {
          var freqMatch := FindFrequency(line);
          if freqMatch.Some? {
            // 3. Frequency line: a medicine from the buffer, then the buffer is emptied
            var med := AssembleMedicine(nameBuffer, line, freqMatch.value);
            if med.Some? {
              data := data.(medicines := data.medicines + [med.value]);
            }
            nameBuffer := [];
          } else if lineUpper !in IgnoreKeywords && lineUpper !in BufferFormWords {
            // 4. Anything else goes into the buffer
            if line != data.patientName && line != data.doctorName {
              nameBuffer := nameBuffer + [line];
            }
          }
        }
      }
    }
  }
}
