/**
 * Worked examples of the pass on concrete inputs, and the general lemmas
 * they rest on: the patient label with a bare `Nme:` line in between, the
 * doctor line with a title and a degree, the case-sensitive title removal,
 * and a medicine assembled from a buffered `Paracetamol 500moy`.
 */
module Examples {
  import opened Strings
  import opened Matchers
  import opened Parser
  import opened Properties

  /** A line that starts with `Dr:` or `Dr.`, in any case, is a doctor line. */
  lemma DoctorLineByTitle(line: string)
    requires |line| >= 3 && UpperChar(line[0]) == 'D' && UpperChar(line[1]) == 'R' && line[2] in {':', '.'}
    ensures IsDoctorLine(Upper(line))
  {
    UpperChars(line);
    var u := Upper(line);
    if line[2] == ':' {
      assert "DR:" <= u[0..];
    } else {
      assert "DR." <= u[0..];
    }
  }

  /** `Dr: Mehta MBBS` is a doctor line and gives the doctor name `Mehta`. */
  lemma DoctorNameExample(line: string)
    requires line == "Dr: Mehta MBBS"
    ensures IsDoctorLine(Upper(line))
    ensures DoctorName(line) == "Mehta"
  {
    DoctorLineByTitle(line);
    DoctorValueExample(line);
    DoctorRemovalExample(DoctorValue(line));
  }

  /** The text after the colon of `Dr: Mehta MBBS`, stripped. */
  lemma DoctorValueExample(line: string)
    requires line == "Dr: Mehta MBBS"
    ensures DoctorValue(line) == "Mehta MBBS"
  {
    ColonTailExample(line);
    LeadingSpaceExample(Last(SplitOn(line, ":")));
  }

  lemma ColonTailExample(line: string)
    requires line == "Dr: Mehta MBBS"
    ensures ':' in line && Last(SplitOn(line, ":")) == " Mehta MBBS"
  {
    var tail := " Mehta MBBS";
    assert line == "Dr" + ":" + tail;
    assert line[2] == ':';
    SplitLastAfter("Dr", tail, ":");
  }

  lemma LeadingSpaceExample(t: string)
    requires t == " Mehta MBBS"
    ensures Strip(t) == "Mehta MBBS"
  {
    assert " " + "Mehta MBBS" + "" == t;
    StripAround(" ", "Mehta MBBS", "", Whitespace);
  }

  /** Removing `MBBS`, `Dr.` and `Dr:` from `Mehta MBBS` and stripping leaves `Mehta`. */
  lemma DoctorRemovalExample(value: string)
    requires value == "Mehta MBBS"
    ensures Strip(ReplaceAll(ReplaceAll(ReplaceAll(value, "MBBS", ""), "Dr.", ""), "Dr:", "")) == "Mehta"
  {
    DegreeRemovalExample(value);
    TitleRemovalExample(ReplaceAll(value, "MBBS", ""));
    TrailingSpaceExample(ReplaceAll(value, "MBBS", ""));
  }

  lemma DegreeRemovalExample(value: string)
    requires value == "Mehta MBBS"
    ensures ReplaceAll(value, "MBBS", "") == "Mehta "
  {
    var a := "Mehta ";
    assert value == a + "MBBS";
    forall k | 0 <= k < |a| ensures !("MBBS" <= (a + "MBBS")[k..]) {
      assert (a + "MBBS")[k..][0] == a[k];
      if k == 0 {
        assert (a + "MBBS")[k..][1] == 'e';
      }
    }
    ReplaceAfterPrefix(a, "MBBS", "MBBS", "");
    assert ReplaceAll("MBBS", "MBBS", "") == "";
  }

  lemma TitleRemovalExample(a: string)
    requires a == "Mehta "
    ensures ReplaceAll(ReplaceAll(a, "Dr.", ""), "Dr:", "") == a
  {
    ReplaceMissing(a, "Dr.", "", 'D');
    ReplaceMissing(a, "Dr:", "", 'D');
  }

  lemma TrailingSpaceExample(a: string)
    requires a == "Mehta "
    ensures Strip(a) == "Mehta"
  {
    assert "" + "Mehta" + " " == a;
    StripAround("", "Mehta", " ", Whitespace);
  }

  /** The title removal is case-sensitive: `DR. Mehta` is a doctor line and keeps its `DR.`. */
  lemma CaseSensitiveTitleExample(line: string)
    requires line == "DR. Mehta"
    ensures IsDoctorLine(Upper(line))
    ensures DoctorName(line) == "DR. Mehta"
  {
    DoctorLineByTitle(line);
    assert ':' !in line;
    UpperTitleKept(line);
  }

  /** None of the patterns `MBBS`, `Dr.`, `Dr:` occurs in `DR. Mehta`, and it has no edge space. */
  lemma UpperTitleKept(value: string)
    requires value == "DR. Mehta"
    ensures Strip(ReplaceAll(ReplaceAll(ReplaceAll(value, "MBBS", ""), "Dr.", ""), "Dr:", "")) == value
  {
    ReplaceMissing(value, "MBBS", "", 'B');
    ReplaceMissing(value, "Dr.", "", 'r');
    ReplaceMissing(value, "Dr:", "", ':');
    StripClassSpec(value, Whitespace);
  }

  /**
   * `PT`, `Nme:`, `Lakshmi Rao`: the label's lookahead skips the bare `Nme:`
   * and takes `Lakshmi Rao` as the patient name; both lines are marked used,
   * so neither is read again.
   */
  lemma PatientLookaheadExample(lines: seq<string>)
    requires lines == ["PT", "Nme:", "Lakshmi Rao"]
    ensures RunTo(lines, 3).usedIndices == {1, 2}
    ensures Parse(lines).patientName == "Lakshmi Rao"
    ensures RunTo(lines, 3).nameBuffer == []
  {
    PatientLabelsExample(lines);
    PatientNameExample(lines[2]);
    LabelThenBareLabelThenName(lines);
  }

  /** Over three lines: label, bare label, name. Only the first line is read; the name is taken. */
  lemma LabelThenBareLabelThenName(lines: seq<string>)
    requires |lines| == 3
    requires IsPatientLabel(Upper(lines[0]))
    requires Upper(lines[1]) in BareNameLabels && Upper(lines[2]) !in BareNameLabels
    ensures RunTo(lines, 3) == State({1, 2}, [], Record(PatientName(lines[2]), NotFound, []))
  {
    var st := State({1, 2}, [], Record(PatientName(lines[2]), NotFound, []));
    LabelSkipsBareLabel(lines, Initial);
    assert {} + {1, 2} == {1, 2};
    assert RunTo(lines, 1) == st;
    UsedLineSkipped(lines, 2, st);
    UsedLineSkipped(lines, 3, st);
  }

  /** Reading a line that is already used leaves the state as it was. */
  lemma UsedLineSkipped(lines: seq<string>, n: nat, st: State)
    requires 0 < n <= |lines| && RunTo(lines, n - 1) == st && n - 1 in st.usedIndices
    ensures RunTo(lines, n) == st
  {
  }

  /** A label line followed by a bare `Nme:` and a name takes the name and marks both lines used. */
  lemma LabelSkipsBareLabel(lines: seq<string>, st: State)
    requires |lines| == 3 && 0 !in st.usedIndices
    requires IsPatientLabel(Upper(lines[0]))
    requires Upper(lines[1]) in BareNameLabels && Upper(lines[2]) !in BareNameLabels
    ensures Step(lines, 0, st)
      == st.(usedIndices := st.usedIndices + {1, 2}, data := st.data.(patientName := PatientName(lines[2])))
  {
    LookaheadCases(lines, 0, st.usedIndices, st.data.patientName);
  }

  /** How the three lines of the example classify once upper-cased. */
  lemma PatientLabelsExample(lines: seq<string>)
    requires lines == ["PT", "Nme:", "Lakshmi Rao"]
    ensures IsPatientLabel(Upper(lines[0]))
    ensures Upper(lines[1]) in BareNameLabels
    ensures Upper(lines[2]) !in BareNameLabels
  {
    UpperChars(lines[0]);
    UpperChars(lines[1]);
    UpperChars(lines[2]);
    assert Upper(lines[0]) == "PT";
    assert Upper(lines[1]) == "NME:";
    assert |Upper(lines[2])| == 11;
  }

  /** `Lakshmi Rao` passes the letter filter and the strip unchanged. */
  lemma PatientNameExample(candidate: string)
    requires candidate == "Lakshmi Rao"
    ensures PatientName(candidate) == candidate
  {
    LettersOnlyExample(candidate);
    LettersOnlyNameKept(candidate);
  }

  /** `Lakshmi Rao` is made of letters and one inner space. */
  lemma LettersOnlyExample(candidate: string)
    requires candidate == "Lakshmi Rao"
    ensures forall k :: 0 <= k < |candidate| ==> IsAsciiLetter(candidate[k]) || IsSpace(candidate[k])
    ensures NoEdge(candidate, Whitespace)
  {
  }

  /** A name made only of letters and inner whitespace passes the letter filter and the strip unchanged. */
  lemma LettersOnlyNameKept(candidate: string)
    requires forall k :: 0 <= k < |candidate| ==> IsAsciiLetter(candidate[k]) || IsSpace(candidate[k])
    requires NoEdge(candidate, Whitespace)
    ensures PatientName(candidate) == candidate
  {
    KeepLettersAndSpacesSpec(candidate);
    StripClassSpec(candidate, Whitespace);
  }

  // ---------------------------------------------------------------------------
  // A buffered `Paracetamol 500moy` assembled on the frequency match `1-0-1`
  // ---------------------------------------------------------------------------

  /**
   * The buffer `Paracetamol 500moy`, assembled on the frequency match `1-0-1`,
   * gives the medicine `Paracetamol`, `500mg`, `1-0-1`: the dosage is cut out
   * of the name and its misread unit normalised.
   */
  lemma ParacetamolMedicine(x: string, f: string)
    requires x == "Paracetamol 500moy" && f == "1-0-1"
    ensures Assemble(Cleaned([x]), f) == Some(Medicine("Paracetamol", "500mg", "1-0-1"))
  {
    LongFragmentKept(x);
    ParacetamolName(x);
    ParacetamolDosage(x);
    ParacetamolPrefix("Paracetamol");
    ReplaceMissing(f, " ", "", ' ');
    AssembleSingle(x, f, "Paracetamol", "500mg");
  }

  /** A buffer of one kept, stripped fragment assembles from that fragment's name and dosage. */
  lemma AssembleSingle(x: string, f: string, name: string, dosage: string)
    requires !IsDroppedFragment(x) && NoEdge(x, Whitespace)
    requires NameText(x) == name && name != "" && StripClass(name, Commas) == name
    requires DosageText(x) == dosage && ReplaceAll(f, " ", "") == f
    ensures Assemble(Cleaned([x]), f) == Some(Medicine(name, dosage, f))
  {
    SingleFragmentText(x);
  }

  /** A fragment longer than every label and dosage form is never dropped. */
  lemma LongFragmentKept(x: string)
    requires |x| > 8
    ensures !IsDroppedFragment(x)
  {
    assert forall w :: w in IgnoreKeywords ==> |w| <= 8;
    assert forall w :: w in FormWords ==> |w| <= 3;
  }

  /** A buffer of one kept, stripped fragment gives that fragment as the full text. */
  lemma SingleFragmentText(x: string)
    requires !IsDroppedFragment(x) && NoEdge(x, Whitespace)
    ensures Cleaned([x]) == [x]
    ensures FullText([x]) == x
  {
    assert [x][..0] == [];
    StripClassSpec(x, Whitespace);
  }

  /** The dosage match of `Paracetamol 500moy` is `500moy`, at positions 12 to 18. */
  lemma ParacetamolDosageMatch(x: string)
    requires x == "Paracetamol 500moy"
    ensures FindDosage(x).Some?
    ensures FindDosage(x).value.start == 12 && FindDosage(x).value.end == 18
    ensures x[12..18] == "500moy"
  {
    var p, d, u := "Paracetamol ", "500", "moy";
    assert x == p + d + u;
    ParacetamolParts(p, d, u);
  }

  /** The three parts of `Paracetamol 500moy`: a word and a space, the digits, the unit. */
  lemma ParacetamolParts(p: string, d: string, u: string)
    requires p == "Paracetamol " && d == "500" && u == "moy"
    ensures FindDosage(p + d + u).Some?
    ensures FindDosage(p + d + u).value.start == 12 && FindDosage(p + d + u).value.end == 18
  {
    MoyUnit(u);
    FindDosageOfParts(p, d, u);
  }

  /** Removing the dosage text and stripping leaves `Paracetamol`. */
  lemma ParacetamolRemoval(x: string)
    requires x == "Paracetamol 500moy"
    ensures Strip(ReplaceAll(x, "500moy", "")) == "Paracetamol"
  {
    assert x == "Paracetamol " + "500moy";
    DosageRemoved("Paracetamol ", "500moy");
    assert "Paracetamol " == "" + "Paracetamol" + " ";
    StripAround("", "Paracetamol", " ", Whitespace);
  }

  /** `Paracetamol` starts with no dosage form and has no whitespace or comma at either end. */
  lemma ParacetamolPrefix(n: string)
    requires n == "Paracetamol"
    ensures Strip(StripFormPrefix(n)) == n
    ensures StripClass(n, Commas) == n
  {
    NoFormPrefix(n);
    StripClassSpec(n, Whitespace);
    StripClassSpec(n, Commas);
  }

  /** The name of `Paracetamol 500moy` is `Paracetamol`. */
  lemma ParacetamolName(x: string)
    requires x == "Paracetamol 500moy"
    ensures NameText(x) == "Paracetamol"
  {
    ParacetamolDosageMatch(x);
    ParacetamolRemoval(x);
    ParacetamolPrefix("Paracetamol");
  }

  /** The dosage of `Paracetamol 500moy` is `500mg`. */
  lemma ParacetamolDosage(x: string)
    requires x == "Paracetamol 500moy"
    ensures DosageText(x) == "500mg"
  {
    ParacetamolDosageMatch(x);
    NormalizeDosageExample();
  }

  /** A dosage text that starts with a digit, after a text with no digit, is removed entirely. */
  lemma DosageRemoved(p: string, v: string)
    requires forall k :: 0 <= k < |p| ==> !IsDigit(p[k])
    requires v != [] && IsDigit(v[0])
    ensures ReplaceAll(p + v, v, "") == p
  {
    forall k | 0 <= k < |p| ensures !(v <= (p + v)[k..]) {
      assert (p + v)[k..][0] == p[k];
    }
    ReplaceAfterPrefix(p, v, v, "");
    assert v[|v|..] == [];
    assert ReplaceAll(v, v, "") == "" + ReplaceAll([], v, "");
  }

  /** The first unit alternative that begins `moy` is `moy` itself, the eighth. */
  lemma MoyUnit(u: string)
    requires u == "moy"
    ensures FirstUnitFrom(u, 0) == 7
  {
    forall n | 0 <= n <= |u| ensures Lower(u[..n]) == u[..n] {
      LowerUnchanged(u[..n]);
    }
    assert StartsWithNoCase(u, Units[7]) by { assert u[..3] == u; }
    assert FirstUnitFrom(u, 6) == 7 by { assert u[..2] == "mo"; }
    assert FirstUnitFrom(u, 4) == 7 by { assert u[..3] == "moy"; }
    assert FirstUnitFrom(u, 3) == 7 by { assert u[..3] == "moy"; }
    assert FirstUnitFrom(u, 1) == 7 by { assert u[..2] == "mo"; assert u[..1] == "m"; }
    assert FirstUnitFrom(u, 0) == 7 by { assert u[..2] == "mo"; }
  }

  /** A text whose first character lower-cases to `p` begins with no dosage form. */
  lemma NoFormPrefix(n: string)
    requires |n| >= 1 && LowerChar(n[0]) == 'p'
    ensures FormPrefixLength(n) == 0
  {
    if |n| >= 3 {
      LowerChars(n[..3]);
    }
    if |n| >= 2 {
      LowerChars(n[..2]);
    }
  }
}
