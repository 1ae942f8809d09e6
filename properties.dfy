/**
 * What the pass of `clean_and_parse` guarantees about the record it builds:
 * the sentinel defaults, how the patient and doctor names are chosen, which
 * lines the lookahead consumes, what the name buffer can hold, and how the
 * list of medicines grows.
 */
module Properties {
  import opened Strings
  import opened Matchers
  import opened Parser

  // ---------------------------------------------------------------------------
  // Which rule line `k` fires
  // ---------------------------------------------------------------------------

  /** Line `k` is read by the pass, not skipped as already used. */
  predicate Active(lines: seq<string>, k: nat)
  {
    k < |lines| && k !in RunTo(lines, k).usedIndices
  }

  predicate PatientStep(lines: seq<string>, k: nat)
  {
    Active(lines, k) && IsPatientLabel(Upper(lines[k]))
  }

  predicate DoctorStep(lines: seq<string>, k: nat)
  {
    Active(lines, k) && !IsPatientLabel(Upper(lines[k])) && IsDoctorLine(Upper(lines[k]))
  }

  /** Line `i`, read in state `st`, is a frequency line: rule 3 fires. */
  predicate FrequencyLine(lines: seq<string>, i: nat, st: State)
    requires i < |lines|
  {
    i !in st.usedIndices && !IsPatientLabel(Upper(lines[i])) && !IsDoctorLine(Upper(lines[i])) &&
    FindFrequency(lines[i]).Some?
  }

  predicate FrequencyStep(lines: seq<string>, k: nat)
  {
    k < |lines| && FrequencyLine(lines, k, RunTo(lines, k))
  }

  // ---------------------------------------------------------------------------
  // Patient and doctor names
  // ---------------------------------------------------------------------------

  /** Only a patient label changes the patient name. */
  lemma {:induction false} PatientUntouched(lines: seq<string>, a: nat, n: nat)
    requires a <= n <= |lines|
    requires forall k :: a <= k < n ==> !PatientStep(lines, k)
    ensures RunTo(lines, n).data.patientName == RunTo(lines, a).data.patientName
    decreases n - a
  {
    if a < n {
      PatientUntouched(lines, a, n - 1);
      assert !PatientStep(lines, n - 1);
    }
  }

  /** Only a doctor line changes the doctor name. */
  lemma {:induction false} DoctorUntouched(lines: seq<string>, a: nat, n: nat)
    requires a <= n <= |lines|
    requires forall k :: a <= k < n ==> !DoctorStep(lines, k)
    ensures RunTo(lines, n).data.doctorName == RunTo(lines, a).data.doctorName
    decreases n - a
  {
    if a < n {
      DoctorUntouched(lines, a, n - 1);
      assert !DoctorStep(lines, n - 1);
    }
  }

  /** Without a patient label the patient name stays `Not Found`. */
  lemma PatientSentinel(lines: seq<string>)
    requires forall k :: 0 <= k < |lines| ==> !PatientStep(lines, k)
    ensures Parse(lines).patientName == NotFound
  {
    PatientUntouched(lines, 0, |lines|);
  }

  /** Without a doctor line the doctor name stays `Not Found`. */
  lemma DoctorSentinel(lines: seq<string>)
    requires forall k :: 0 <= k < |lines| ==> !DoctorStep(lines, k)
    ensures Parse(lines).doctorName == NotFound
  {
    DoctorUntouched(lines, 0, |lines|);
  }

  /** The last doctor line read decides the doctor name. */
  lemma DoctorLastWins(lines: seq<string>, k: nat)
    requires DoctorStep(lines, k)
    requires forall j :: k < j < |lines| ==> !DoctorStep(lines, j)
    ensures Parse(lines).doctorName == DoctorName(lines[k])
  {
    DoctorUntouched(lines, k + 1, |lines|);
  }

  /** The last patient label read decides the patient name, through its lookahead. */
  lemma PatientLastWins(lines: seq<string>, k: nat)
    requires PatientStep(lines, k)
    requires forall j :: k < j < |lines| ==> !PatientStep(lines, j)
    ensures var st := RunTo(lines, k);
      Parse(lines).patientName == Lookahead(lines, k, 1, st.usedIndices, st.data.patientName).1
  {
    PatientUntouched(lines, k + 1, |lines|);
  }

  /**
   * The lookahead after a patient label at line `i`: the next line gives the
   * name unless it is a bare label, in which case the line after it is tried;
   * every line looked at is marked used, and the old name survives when no
   * line in the window gives one.
   */
  lemma LookaheadCases(lines: seq<string>, i: nat, used: set<int>, patient: string)
    requires i < |lines|
    ensures var r := Lookahead(lines, i, 1, used, patient);
      if i + 1 == |lines| then r == (used, patient)
      else if Upper(lines[i + 1]) !in BareNameLabels then r == (used + {i + 1}, PatientName(lines[i + 1]))
      else if i + 2 == |lines| then r == (used + {i + 1}, patient)
      else if Upper(lines[i + 2]) !in BareNameLabels then r == (used + {i + 1, i + 2}, PatientName(lines[i + 2]))
      else r == (used + {i + 1, i + 2}, patient)
  {
    if i + 1 < |lines| && Upper(lines[i + 1]) in BareNameLabels {
      var u1 := used + {i + 1};
      assert Lookahead(lines, i, 1, used, patient) == Lookahead(lines, i, 2, u1, patient);
      if i + 2 < |lines| && Upper(lines[i + 2]) in BareNameLabels {
        assert Lookahead(lines, i, 2, u1, patient) == Lookahead(lines, i, 3, u1 + {i + 2}, patient);
        assert u1 + {i + 2} == used + {i + 1, i + 2};
      } else if i + 2 < |lines| {
        assert u1 + {i + 2} == used + {i + 1, i + 2};
      }
    } else if i + 1 == |lines| {
      assert Lookahead(lines, i, 1, used, patient) == Lookahead(lines, i, 2, used, patient);
    }
  }

  // ---------------------------------------------------------------------------
  // Lines consumed by the lookahead
  // ---------------------------------------------------------------------------

  /** A step marks lines used only after a patient label it reads, at most two lines ahead. */
  lemma StepUsed(lines: seq<string>, i: nat, st: State)
    requires i < |lines|
    ensures st.usedIndices <= Step(lines, i, st).usedIndices
    ensures forall v :: v in Step(lines, i, st).usedIndices && v !in st.usedIndices ==>
      i !in st.usedIndices && IsPatientLabel(Upper(lines[i])) && i < v <= i + 2 && v < |lines|
  {
  }

  /** The conditions a used index `v` meets after `n` lines. */
  predicate UsedAfterLabel(lines: seq<string>, n: nat, v: int)
  {
    0 < v < |lines| && v <= n + 1 &&
    ((1 <= v <= n && PatientStep(lines, v - 1)) || (2 <= v && PatientStep(lines, v - 2)))
  }

  /**
   * Every used index lies within two lines after a patient label that was
   * read, and an index the pass has reached was already used when reached.
   */
  lemma {:induction false} VisitedWindow(lines: seq<string>, n: nat)
    requires n <= |lines|
    ensures forall v :: v in RunTo(lines, n).usedIndices ==>
      UsedAfterLabel(lines, n, v) && (v <= n ==> v in RunTo(lines, v).usedIndices)
  {
    if n > 0 {
      VisitedWindow(lines, n - 1);
      var st := RunTo(lines, n - 1);
      StepUsed(lines, n - 1, st);
      forall v | v in RunTo(lines, n).usedIndices
        ensures UsedAfterLabel(lines, n, v) && (v <= n ==> v in RunTo(lines, v).usedIndices)
      {
        if v in st.usedIndices {
          assert UsedAfterLabel(lines, n - 1, v);
        } else {
          assert PatientStep(lines, n - 1);
        }
      }
    }
  }

  /** A line that ends up used is skipped when the pass reaches it: it changes nothing. */
  lemma ConsumedLineInert(lines: seq<string>, v: nat)
    requires v in RunTo(lines, |lines|).usedIndices
    ensures v < |lines| && !Active(lines, v)
    ensures RunTo(lines, v + 1) == RunTo(lines, v)
  {
    VisitedWindow(lines, |lines|);
  }

  // ---------------------------------------------------------------------------
  // The name buffer
  // ---------------------------------------------------------------------------

  /** A line rule 4 may put into the buffer: no earlier rule fires on it and it is no header. */
  predicate Bufferable(line: string)
  {
    !IsPatientLabel(Upper(line)) && !IsDoctorLine(Upper(line)) && FindFrequency(line).None? &&
    Upper(line) !in IgnoreKeywords && Upper(line) !in BufferFormWords
  }

  /** A step keeps the buffer, empties it on a frequency line, or appends a bufferable line. */
  lemma StepBuffer(lines: seq<string>, i: nat, st: State)
    requires i < |lines|
    ensures FrequencyLine(lines, i, st) ==> Step(lines, i, st).nameBuffer == []
    ensures var b := Step(lines, i, st).nameBuffer;
      b == st.nameBuffer || (FrequencyLine(lines, i, st) && b == []) ||
      (b == st.nameBuffer + [lines[i]] && i !in st.usedIndices && Bufferable(lines[i]) &&
       lines[i] != st.data.patientName && lines[i] != st.data.doctorName)
  {
  }

  /** Every fragment of `buffer` is one of the lines `a` to `n - 1`. */
  predicate BufferWithin(lines: seq<string>, a: nat, n: nat, buffer: seq<string>)
    requires a <= n <= |lines|
  {
    forall x :: x in buffer ==> x in lines[a..n]
  }

  /** Every fragment of `buffer` may be buffered, checked from the last one back. */
  predicate AllBufferable(buffer: seq<string>)
  {
    buffer == [] || (AllBufferable(buffer[..|buffer| - 1]) && Bufferable(Last(buffer)))
  }

  /** The backward check is the check of every fragment. */
  lemma {:induction false} AllBufferableMembers(buffer: seq<string>)
    ensures AllBufferable(buffer) <==> forall x :: x in buffer ==> Bufferable(x)
  {
    if buffer != [] {
      AllBufferableMembers(buffer[..|buffer| - 1]);
      assert buffer == buffer[..|buffer| - 1] + [Last(buffer)];
    }
  }

  /** A step only buffers a bufferable line. */
  lemma StepKeepsBufferable(lines: seq<string>, i: nat, st: State, next: State)
    requires i < |lines| && next == Step(lines, i, st)
    requires AllBufferable(st.nameBuffer)
    ensures AllBufferable(next.nameBuffer)
  {
    StepBuffer(lines, i, st);
    if next.nameBuffer != [] && next.nameBuffer != st.nameBuffer {
      assert next.nameBuffer[..|next.nameBuffer| - 1] == st.nameBuffer;
    }
  }

  /** A step adds to the buffer only the line it reads. */
  lemma StepKeepsBufferWithin(lines: seq<string>, i: nat, st: State, next: State, start: nat)
    requires start <= i < |lines| && next == Step(lines, i, st)
    requires BufferWithin(lines, start, i, st.nameBuffer)
    ensures BufferWithin(lines, start, i + 1, next.nameBuffer)
  {
    StepBuffer(lines, i, st);
    SliceGrows(lines, start, i);
  }

  /** Extending a slice by one line keeps what it held and adds that line. */
  lemma SliceGrows(lines: seq<string>, a: nat, b: nat)
    requires a <= b < |lines|
    ensures forall x :: x in lines[a..b + 1] <==> x in lines[a..b] || x == lines[b]
  {
    assert lines[a..b + 1] == lines[a..b] + [lines[b]];
  }

  /**
   * Every buffered fragment is a line already read that no earlier rule
   * claims and that is no header.
   */
  lemma BufferHoldsReadLines(lines: seq<string>, n: nat)
    requires n <= |lines|
    ensures BufferWithin(lines, 0, n, RunTo(lines, n).nameBuffer)
    ensures AllBufferable(RunTo(lines, n).nameBuffer)
  {
    BufferFilledFrom(lines, 0, n);
    BufferOnlyBufferable(lines, n);
  }

  lemma {:induction false} BufferOnlyBufferable(lines: seq<string>, n: nat)
    requires n <= |lines|
    ensures AllBufferable(RunTo(lines, n).nameBuffer)
  {
    if n > 0 {
      BufferOnlyBufferable(lines, n - 1);
      RunToKeepsBufferable(lines, n, RunTo(lines, n - 1), RunTo(lines, n));
    }
  }

  /** Line `n - 1` buffers at most itself, and only when it may be buffered. */
  lemma RunToKeepsBufferable(lines: seq<string>, n: nat, prev: State, cur: State)
    requires 0 < n <= |lines| && prev == RunTo(lines, n - 1) && cur == RunTo(lines, n)
    requires AllBufferable(prev.nameBuffer)
    ensures AllBufferable(cur.nameBuffer)
  {
    StepKeepsBufferable(lines, n - 1, prev, cur);
  }

  /** A frequency line empties the buffer. */
  lemma FrequencyEmptiesBuffer(lines: seq<string>, j: nat)
    requires FrequencyStep(lines, j)
    ensures RunTo(lines, j + 1).nameBuffer == []
  {
    StepBuffer(lines, j, RunTo(lines, j));
  }

  /** What the buffer holds after a frequency line was read after that line. */
  lemma BufferAfterFrequency(lines: seq<string>, n: nat, j: nat)
    requires j < n <= |lines| && FrequencyStep(lines, j)
    ensures BufferWithin(lines, j + 1, n, RunTo(lines, n).nameBuffer)
  {
    FrequencyEmptiesBuffer(lines, j);
    BufferFilledFrom(lines, j + 1, n);
  }

  /** Once the buffer is empty after line `a - 1`, it only takes lines from `a` on. */
  lemma {:induction false} BufferFilledFrom(lines: seq<string>, a: nat, n: nat)
    requires a <= n <= |lines| && RunTo(lines, a).nameBuffer == []
    ensures BufferWithin(lines, a, n, RunTo(lines, n).nameBuffer)
    decreases n
  {
    if a < n {
      BufferFilledFrom(lines, a, n - 1);
      RunToKeepsWithin(lines, a, n);
    }
  }

  /** Line `n - 1` adds to the buffer only itself. */
  lemma RunToKeepsWithin(lines: seq<string>, a: nat, n: nat)
    requires a <= n - 1 && 0 < n <= |lines|
    requires BufferWithin(lines, a, n - 1, RunTo(lines, n - 1).nameBuffer)
    ensures BufferWithin(lines, a, n, RunTo(lines, n).nameBuffer)
  {
    StepKeepsBufferWithin(lines, n - 1, RunTo(lines, n - 1), RunTo(lines, n), a);
  }

  /** Between frequency lines the buffer only grows, by appending. */
  lemma {:induction false} BufferAppendOnly(lines: seq<string>, a: nat, n: nat)
    requires a <= n <= |lines|
    requires forall k :: a <= k < n ==> !FrequencyStep(lines, k)
    ensures RunTo(lines, a).nameBuffer <= RunTo(lines, n).nameBuffer
  {
    if n > a {
      BufferAppendOnly(lines, a, n - 1);
      RunToKeepsBufferPrefix(lines, n, RunTo(lines, n - 1), RunTo(lines, n));
    }
  }

  /** A line that is no frequency line keeps the buffer as a prefix of the new one. */
  lemma RunToKeepsBufferPrefix(lines: seq<string>, n: nat, prev: State, cur: State)
    requires 0 < n <= |lines| && prev == RunTo(lines, n - 1) && cur == RunTo(lines, n)
    requires !FrequencyStep(lines, n - 1)
    ensures prev.nameBuffer <= cur.nameBuffer
  {
    StepBuffer(lines, n - 1, prev);
  }

  /** Only fragments that are labels or dosage forms yield no medicine at all. */
  lemma DroppedOnlyYieldsNothing(buffer: seq<string>, frequencyText: string)
    requires forall x :: x in buffer ==> IsDroppedFragment(x)
    ensures Assemble(Cleaned(buffer), frequencyText) == None
  {
    CleanedMembers(buffer);
    assert FullText([]) == "";
  }

  // ---------------------------------------------------------------------------
  // The list of medicines
  // ---------------------------------------------------------------------------

  /** What every medicine in the record satisfies. */
  predicate WellFormedMedicine(med: Medicine)
  {
    ' ' !in med.frequency && Matches(med.frequency, FrequencyPattern) &&
    NoEdge(med.name, Commas) &&
    forall c :: c in med.dosage ==> !IsUpperLetter(c)
  }

  /** Only a frequency line changes the list of medicines. */
  lemma StepMedicinesOther(lines: seq<string>, i: nat, st: State)
    requires i < |lines| && !FrequencyLine(lines, i, st)
    ensures Step(lines, i, st).data.medicines == st.data.medicines
  {
  }

  /** The medicine a frequency line yields is well formed. */
  lemma AssembledMedicineShape(buffer: seq<string>, line: string)
    requires FindFrequency(line).Some?
    ensures var f := FindFrequency(line).value;
      f.start <= f.end <= |line| &&
      var med := Assemble(Cleaned(buffer), line[f.start..f.end]);
      med.Some? ==> WellFormedMedicine(med.value)
  {
    var f := FindFrequency(line).value;
    FindFrequencySound(line);
    DosageTextSpec(FullText(Cleaned(buffer)));
  }

  /** A frequency line appends at most one medicine, and a well-formed one. */
  lemma StepMedicinesFrequency(lines: seq<string>, i: nat, st: State)
    requires i < |lines| && FrequencyLine(lines, i, st)
    ensures var m := Step(lines, i, st).data.medicines;
      m == st.data.medicines ||
      (|m| > 0 && m == st.data.medicines + [Last(m)] && WellFormedMedicine(Last(m)))
  {
    AssembledMedicineShape(st.nameBuffer, lines[i]);
  }

  /** A step appends at most one medicine, and only on a frequency line. */
  lemma StepMedicines(lines: seq<string>, i: nat, st: State)
    requires i < |lines|
    ensures var m := Step(lines, i, st).data.medicines;
      m == st.data.medicines ||
      (FrequencyLine(lines, i, st) && |m| > 0 && m == st.data.medicines + [Last(m)] &&
       WellFormedMedicine(Last(m)))
  {
    if FrequencyLine(lines, i, st) {
      StepMedicinesFrequency(lines, i, st);
    } else {
      StepMedicinesOther(lines, i, st);
    }
  }

  /** Medicines are only ever appended. */
  lemma {:induction false} MedicinesAppendOnly(lines: seq<string>, a: nat, n: nat)
    requires a <= n <= |lines|
    ensures RunTo(lines, a).data.medicines <= RunTo(lines, n).data.medicines
    decreases n - a
  {
    if a < n {
      MedicinesAppendOnly(lines, a, n - 1);
      StepMedicines(lines, n - 1, RunTo(lines, n - 1));
    }
  }

  /** The number of the first `n` lines on which the pass fires the frequency rule. */
  function FrequencyLineCount(lines: seq<string>, n: nat): (c: nat)
    requires n <= |lines|
    ensures c <= n
  {
    if n == 0 then 0
    else FrequencyLineCount(lines, n - 1) + (if FrequencyStep(lines, n - 1) then 1 else 0)
  }

  /** There are at most as many medicines as frequency lines read. */
  lemma {:induction false} MedicineCount(lines: seq<string>, n: nat)
    requires n <= |lines|
    ensures |RunTo(lines, n).data.medicines| <= FrequencyLineCount(lines, n)
  {
    if n > 0 {
      MedicineCount(lines, n - 1);
      StepMedicines(lines, n - 1, RunTo(lines, n - 1));
    }
  }

  /**
   * Every medicine has a space-free frequency that still matches the
   * frequency pattern, a name without edge commas and a lower-case dosage.
   */
  lemma {:induction false} MedicineShape(lines: seq<string>, n: nat)
    requires n <= |lines|
    ensures AllWellFormed(RunTo(lines, n).data.medicines)
  {
    if n > 0 {
      MedicineShape(lines, n - 1);
      RunToKeepsShape(lines, n);
    }
  }

  /** Line `n - 1` keeps the medicines well formed. */
  lemma RunToKeepsShape(lines: seq<string>, n: nat)
    requires 0 < n <= |lines|
    requires AllWellFormed(RunTo(lines, n - 1).data.medicines)
    ensures AllWellFormed(RunTo(lines, n).data.medicines)
  {
    StepKeepsShape(lines, n - 1, RunTo(lines, n - 1), RunTo(lines, n));
  }

  /** Every medicine of `meds` is well formed, checked from the last one back. */
  predicate AllWellFormed(meds: seq<Medicine>)
  {
    meds == [] || (AllWellFormed(meds[..|meds| - 1]) && WellFormedMedicine(Last(meds)))
  }

  /** The backward check is the check of every member. */
  lemma {:induction false} AllWellFormedMembers(meds: seq<Medicine>)
    ensures AllWellFormed(meds) <==> forall med :: med in meds ==> WellFormedMedicine(med)
  {
    if meds != [] {
      AllWellFormedMembers(meds[..|meds| - 1]);
      assert meds == meds[..|meds| - 1] + [Last(meds)];
    }
  }

  /** A step keeps every medicine well formed. */
  lemma StepKeepsShape(lines: seq<string>, i: nat, st: State, next: State)
    requires i < |lines| && next == Step(lines, i, st)
    requires AllWellFormed(st.data.medicines)
    ensures AllWellFormed(next.data.medicines)
  {
    var m := next.data.medicines;
    StepMedicines(lines, i, st);
    if m != st.data.medicines {
      assert m[..|m| - 1] == st.data.medicines;
    }
  }

  /**
   * Rule order: a doctor line is never a frequency line or a buffer
   * fragment, even when it holds a frequency.
   */
  lemma DoctorBeforeFrequency(lines: seq<string>, k: nat)
    requires DoctorStep(lines, k)
    ensures RunTo(lines, k + 1).nameBuffer == RunTo(lines, k).nameBuffer
    ensures RunTo(lines, k + 1).data.medicines == RunTo(lines, k).data.medicines
    ensures RunTo(lines, k + 1).data.doctorName == DoctorName(lines[k])
  {
  }

  // ---------------------------------------------------------------------------
  // Doctor names
  // ---------------------------------------------------------------------------

  /** The doctor name depends only on the text after the last colon. */
  lemma DoctorAfterLastColon(a: string, b: string)
    requires ':' !in b
    ensures DoctorValue(a + ":" + b) == Strip(b)
    ensures forall c :: DoctorName(a + ":" + b) == DoctorName(c + ":" + b)
  {
    SplitLastAfter(a, b, ":");
    forall c ensures DoctorName(a + ":" + b) == DoctorName(c + ":" + b) {
      SplitLastAfter(c, b, ":");
      assert (c + ":" + b)[|c|] == ':';
    }
    assert (a + ":" + b)[|a|] == ':';
  }

  /** The value never holds a colon, so removing `Dr:` changes nothing. */
  lemma DoctorColonRemovalInert(line: string)
    ensures DoctorName(line) == Strip(ReplaceAll(ReplaceAll(DoctorValue(line), "MBBS", ""), "Dr.", ""))
  {
    var a := ReplaceAll(DoctorValue(line), "MBBS", "");
    var b := ReplaceAll(a, "Dr.", "");
    ReplaceChars(DoctorValue(line), "MBBS", "");
    ReplaceChars(a, "Dr.", "");
    ReplaceMissing(b, "Dr:", "", ':');
  }
}
