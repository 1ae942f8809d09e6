# Prescription field extraction, modelled in Dafny

This project models `clean_and_parse` in `app.py`, the function that turns OCR text of a handwritten prescription into a record. The record has three fields: `patient_name`, `doctor_name` and a list of medicines. Each medicine has a `name`, a `dosage` and a `frequency`.

The function makes one forward pass over the non-empty, stripped lines of the text. For each line, the first of four rules that applies decides what happens to it:

1. **Patient label.** An exact label such as `PT` or `P NME` starts a lookahead of up to two lines. Bare labels such as `Nme:` are skipped. The first other line becomes the patient name, reduced to letters and whitespace. Every line looked at is marked used, and the pass skips used lines later.
2. **Doctor line.** A line containing `DR.`, `DR:` or `DOCTOR` (case-insensitive) sets the doctor name. The value is the stripped text after the last colon, or the whole line when it has no colon. From it, `MBBS`, `Dr.` and `Dr:` are removed, case-sensitively, so `DR.` stays. The result is stripped.
3. **Frequency line.** A line matching `\d\s*-\s*\d\s*-\s*\d` assembles a medicine from the name buffer and then empties the buffer:
   - the buffer is filtered and joined;
   - the dosage is the first number with its unit, normalised;
   - the name is what remains, without a leading dosage form and without surrounding commas.
4. **Buffer.** Any other line goes into the name buffer when it is not a header and differs from both the current patient name and the current doctor name.

The files are:

- `strings.dfy` (module `Strings`): the Python string operations the function uses, restricted to ASCII. These are `upper`, `lower`, `strip`, `strip(',')`, `split`, `join` and `replace`, with their laws.
- `matchers.dfy` (module `Matchers`): one hand-written matcher for each regular expression. Only the frequency matcher is proved against a separate pattern semantics. For the others, the contracts state what the regular expression means.
  - The frequency search is a greedy matcher. It is proved to agree with a nondeterministic pattern semantics, and to return a leftmost match.
  - The dosage search is stated as its regular-expression meaning.
  - The dosage-form prefix removal is anchored and case-insensitive.
  - The letter filter keeps only letters and whitespace.
- `parser.dfy` (module `Parser`): the record, the per-line rules and the pass.
  - As functions: `Step` processes one line, `RunTo` gives the state after `n` lines, and `Parse` gives the final record.
  - As the source's imperative code: the methods `CleanBuffer`, `LookAheadForName`, `AssembleMedicine` and `CleanAndParse`. `CleanBuffer`, `LookAheadForName` and `CleanAndParse` are loops; `AssembleMedicine` is straight-line code that updates its locals step by step. Each method is proved to compute the corresponding function.
- `properties.dfy` (module `Properties`): what the pass guarantees over a whole prescription. This covers the sentinels, which line decides each name, which lines are consumed, what the buffer can hold, and how the medicine list grows.
- `examples.dfy` (module `Examples`): concrete inputs worked through the model, and the general lemmas they rest on.

## Model

| member | source | states |
|---|---|---|
| Parser.Step | app.py:52-122 | definition, no contract: one iteration of the loop; a used line changes nothing, and otherwise the first of the label, doctor, frequency and buffer rules that applies decides the new state |
| Parser.RunTo | app.py:52-122 | definition, no contract: the state after the first `n` lines, starting from the `Not Found` record, no used index and an empty buffer |
| Parser.Parse | app.py:52-124 | definition, no contract: the record after all lines; its properties are the `Properties` lemmas |
| Parser.CleanAndParse | app.py:38-124 | the loop over the lines, with its used-index set, name buffer and record, returns exactly `Parse(Lines(rawText))` |
| Parser.CleanLines | app.py:39 | each kept line is non-empty, has no whitespace at either end, and has no line feed when the pieces had none; no more lines than pieces |
| Parser.CleanLinesKeepsClean | app.py:39 | lines already non-empty and stripped are all kept, unchanged and in order |
| Parser.LinesRoundTrip | app.py:39 | lines of the shape `Lines` produces, joined with line feeds, are split back into exactly those lines |
| Strings.SplitHead | app.py:39 | splitting `x + sep + y`, where `x` has no separator, gives `x` and then the pieces of `y` |
| Strings.SplitJoin | app.py:39 | splitting the join of pieces free of a one-character separator gives the pieces back |
| Parser.Lines | app.py:39 | every line of the text is non-empty, stripped and free of line feeds |
| Strings.SplitPiecesFree | app.py:39 | no piece of a split on a one-character separator contains that separator |
| Strings.JoinSplit | app.py:39 | joining the pieces of a split with the separator gives back the text |
| Strings.StripClassSpec | app.py:39 | stripping gives the empty text exactly when every character is stripped, and leaves an already stripped text unchanged |
| Strings.StripChars | app.py:39 | stripping only removes characters |
| Strings.UpperChars | app.py:54 | upper-casing maps each character to its ASCII upper case |
| Strings.Strip | app.py:39 | `strip()` leaves no whitespace at either end; `StripClassSpec` and `StripAround` state which text it is |
| Strings.Contains | app.py:73 | definition, no contract: `t in s`, some position of `s` starts with `t` |
| Strings.Upper | app.py:54 | upper-casing keeps the length; `UpperChars` states the characters |
| Strings.Lower | app.py:100 | lower-casing keeps the length; `LowerChars` states the characters |
| Strings.StripClass | app.py:39 | the result has no character of the class at either end; `StripClassSpec` states which text it is |
| Strings.SplitOn | app.py:39 | a split gives at least one piece; `JoinSplit` and `SplitPiecesFree` state which |
| Strings.Join | app.py:90 | definition, no contract: the pieces with the separator between each two; `JoinSplit` relates it to `SplitOn` |
| Strings.ReplaceAll | app.py:75 | definition, no contract: the text with every non-overlapping occurrence of the pattern, found left to right, replaced; `ReplaceIsSplitJoin`, `ReplaceMissing` and `ReplaceChars` state its properties |
| Strings.StripAround | app.py:39 | stripping a text surrounded by runs of the stripped class, that has none at its own ends, gives that text |
| Strings.ReplaceAfterPrefix | app.py:75 | a replacement whose pattern starts nowhere in a prefix leaves the prefix unchanged |
| Properties.PatientSentinel | app.py:41-45 | with no patient label read, the patient name stays `Not Found` |
| Properties.DoctorSentinel | app.py:41-45 | with no doctor line read, the doctor name stays `Not Found` |
| Properties.PatientUntouched | app.py:57-70 | over lines none of which is a patient label that is read, the patient name does not change |
| Properties.DoctorUntouched | app.py:73-76 | over lines none of which is a doctor line that is read, the doctor name does not change |
| Properties.PatientLastWins | app.py:57-70 | the patient name of the record is the one the lookahead of the last patient label read gives |
| Properties.DoctorLastWins | app.py:73-76 | the doctor name of the record is `DoctorName` of the last doctor line read |
| Parser.Lookahead | app.py:59-69 | keeps every earlier used index, and adds only indices between `i + offset` and `i + 2` that lie within the text |
| Parser.LookAheadForName | app.py:59-69 | the `for offset in range(1, 3)` loop, with its `continue` and `break`, computes `Lookahead` |
| Parser.IsPatientLabel | app.py:57 | definition, no contract: the upper-cased line is exactly `PT`, `NAME`, `PATIENT` or `P NME` |
| Properties.LookaheadCases | app.py:59-69 | the lookahead's five outcomes: no next line; next line gives the name; next line a bare label and no line after; line after gives the name; both bare labels; every line looked at is marked used |
| Properties.StepUsed | app.py:53-70 | a step never unmarks a line, and marks new lines only when it reads a patient label, strictly after it and at most two lines ahead |
| Properties.VisitedWindow | app.py:53-70 | every used index lies one or two lines after a patient label that was read, and was already used when the pass reached it |
| Properties.ConsumedLineInert | app.py:53 | a line that ends up used is skipped when reached and changes nothing in the state |
| Parser.PatientName | app.py:67 | the patient name has no whitespace at either end |
| Parser.PatientNameLetters | app.py:67 | the patient name holds only ASCII letters and whitespace |
| Matchers.KeepLettersAndSpacesSpec | app.py:67 | every kept character is a letter or whitespace, every letter or whitespace character of the text is kept, and a text made only of them is unchanged; order and multiplicity are stated by `KeepConcat` |
| Matchers.KeepConcat | app.py:67 | the filter works character by character: filtering a concatenation gives the filtered parts concatenated in order |
| Matchers.KeepLettersAndSpaces | app.py:67 | the filter never lengthens the text; what it keeps is stated by `KeepLettersAndSpacesSpec` |
| Parser.DoctorValue | app.py:74 | the doctor value never holds a colon |
| Parser.DoctorValueChars | app.py:74 | the doctor value is made of characters of the line |
| Parser.IsDoctorLine | app.py:73 | definition, no contract: the upper-cased line contains `DR.`, `DR:` or `DOCTOR` |
| Strings.SplitLastPiece | app.py:74 | the last piece of a split is the suffix after the last separator; it is the whole text exactly when there is no separator |
| Strings.SplitLastAfter | app.py:74 | the last piece of `a + sep + b`, where `b` has no separator, is `b` |
| Properties.DoctorAfterLastColon | app.py:74-75 | with a colon, the value is the stripped text after the last colon, and the doctor name depends on nothing before that colon |
| Parser.DoctorName | app.py:75 | the doctor name holds no colon and has no whitespace at either end |
| Parser.DoctorNameChars | app.py:74-75 | the doctor name is made of characters of the line |
| Properties.DoctorColonRemovalInert | app.py:75 | removing `Dr:` never changes the value, which has no colon |
| Strings.ReplaceIsSplitJoin | app.py:75 | `replace` equals split on the pattern followed by join with the replacement |
| Strings.ReplaceBySelf | app.py:75 | replacing a pattern by itself changes nothing |
| Strings.ReplaceChars | app.py:75 | `replace` only yields characters of the text or of the replacement |
| Strings.ReplaceMissing | app.py:75 | `replace` of a pattern with a character absent from the text changes nothing |
| Properties.DoctorBeforeFrequency | app.py:73-80 | a doctor line sets the doctor name and never touches the buffer or the medicines, so it is never a frequency line |
| Matchers.MatchPrefixSound | app.py:79 | the greedy matcher's prefix matches the pattern |
| Matchers.MatchPrefixComplete | app.py:79 | any prefix that matches the pattern is the one the greedy matcher finds |
| Matchers.SearchFromFirst | app.py:79 | the search reports the first position from which the greedy matcher succeeds, or none |
| Matchers.SearchFound | app.py:79 | a reported match matches the pattern, and no match starts further left |
| Matchers.SearchNone | app.py:79 | the search reports nothing exactly when no part of the text matches |
| Matchers.SearchCorrect | app.py:79 | both of the above, as `re.search` promises |
| Matchers.FindFrequencyCorrect | app.py:79 | the frequency search returns a leftmost match of `\d\s*-\s*\d\s*-\s*\d`, or none exactly when nothing matches |
| Matchers.FindFrequencySound | app.py:79 | the frequency match lies in the line and matches the pattern |
| Matchers.FindFrequency | app.py:79 | definition, no contract: the search for the frequency pattern from position 0; `FindFrequencyCorrect` states what it finds |
| Matchers.MatchPrefix | app.py:79 | the greedy matcher's match length never exceeds the text; `MatchPrefixSound` and `MatchPrefixComplete` state what it matches |
| Matchers.SearchFrom | app.py:79 | a match found from position `k` starts at or after `k` and lies within the text |
| Parser.CleanBuffer | app.py:82-88 | the filtering loop returns `Cleaned(nameBuffer)` |
| Parser.CleanedMembers | app.py:82-88 | a fragment is in the cleaned buffer if and only if it is in the buffer and is not a label or dosage form, and the cleaned buffer is empty exactly when every fragment is one; order and multiplicity are stated by `CleanedConcat` |
| Parser.CleanedConcat | app.py:82-88 | the filter keeps order and multiplicity: cleaning a concatenation of buffers gives the cleaned parts concatenated |
| Parser.Cleaned | app.py:82-88 | the cleaned buffer is never longer than the buffer; `CleanedMembers` states which fragments it keeps |
| Parser.IsDroppedFragment | app.py:86 | definition, no contract: the upper-cased fragment is a header keyword or one of `TAB`, `CAP`, `T`, `C` |
| Parser.FullText | app.py:90 | definition, no contract: the cleaned fragments joined with one space, then stripped |
| Properties.DroppedOnlyYieldsNothing | app.py:86-108 | a buffer of labels and dosage forms only yields no medicine |
| Matchers.FirstUnitFrom | app.py:93 | the unit chosen is the first alternative, in the expression's order, that begins the text |
| Matchers.StartsWithNoCase | app.py:93 | definition, no contract: with case ignored as `re.IGNORECASE` does, the text begins with the lower-case alternative |
| Matchers.FindDosageOfParts | app.py:93 | a text with no digit, then digits, then a unit text: the match covers the digits and the first unit alternative that begins the unit text |
| Strings.SkipClassTo | app.py:93 | a run of the class ended by the text's end or by a character outside the class is exactly what the skip takes |
| Matchers.FindDosageSpec | app.py:93 | a dosage match exists exactly when the text has a digit; it starts at the first digit, takes the whole digit run, then the whole whitespace run, then the first unit alternative that follows, if any |
| Matchers.FindDosage | app.py:93 | the match bounds are ordered, and the digit run is non-empty |
| Matchers.ZeroOgNeedsSpace | app.py:93 | the misread unit `0og` is only matched after whitespace |
| Strings.LowerChars | app.py:100 | lower-casing maps each character to its ASCII lower case and leaves no upper-case letter |
| Matchers.NormalizeDosage | app.py:100 | the normalised dosage is empty exactly when the matched text is |
| Matchers.NormalizeMatchedDosage | app.py:93-100 | on a dosage match, normalising keeps the digits and the whitespace before the unit unchanged, and turns the lower-cased unit into `NormalizedUnit` of it: `my`, `moy` and `0og` become `mg`, every other unit stays as it is |
| Matchers.NormalizedUnit | app.py:100 | definition, no contract: the misread table, `my`, `moy` and `0og` to `mg`, every other unit unchanged |
| Matchers.NormalizeUnitText | app.py:100 | for a number text followed by a unit alternative in any case, the three replacements touch only the unit and give its normalised, lower-cased form |
| Matchers.UnitReplacements | app.py:100 | the replacement chain, applied to each unit alternative alone, gives `mg` for the three misreadings and leaves every other alternative unchanged |
| Matchers.MatchedNumber | app.py:93 | the part of a dosage match before the unit is digits and whitespace only |
| Matchers.MatchedUnit | app.py:93 | the unit part of a dosage match, lower-cased, is empty or one of the unit alternatives |
| Matchers.NormalizeDosageExample | app.py:100 | the dosage `500moy` normalises to `500mg` |
| Strings.LowerConcat | app.py:100 | lower-casing distributes over concatenation |
| Strings.LowerUnchanged | app.py:100 | lower-casing leaves a text with no upper-case letter unchanged |
| Matchers.NormalizeDosageLower | app.py:100 | the normalised dosage has no upper-case letter |
| Strings.ReplaceEmpty | app.py:100 | replacing with a non-empty text gives the empty text exactly when the input is empty |
| Parser.DosageTextSpec | app.py:93-103 | the dosage is `""` exactly when the joined text has no digit, and is in lower case |
| Parser.DosageText | app.py:95-103 | definition, no contract: the normalised dosage match, or `""` without one; `DosageTextSpec` states its properties |
| Parser.NameText | app.py:96-106 | definition, no contract: the full text without its dosage match, stripped, with its dosage-form prefix removed and stripped again |
| Matchers.FormPrefixLength | app.py:106 | the length of the alternative that begins the text, ignoring case: 3 exactly for `Tab` or `Cap`, 2 for `T` or `C` followed by whitespace and for `Rx`, 0 exactly when none does |
| Matchers.StripFormPrefix | app.py:106 | the removal only shortens the text, and changes nothing when no alternative begins it |
| Matchers.StripFormPrefixSpec | app.py:106 | after an alternative, the removal takes all the whitespace that follows, and leaves a suffix that does not start with whitespace |
| Parser.Assemble | app.py:90-113 | no medicine exactly when the name is empty; otherwise the dosage is the normalised dosage, the frequency has no space and still matches the pattern, and the name has no comma at either end |
| Parser.AssembleMedicine | app.py:82-113 | the assembly code computes `Assemble` of the cleaned buffer and the frequency match |
| Strings.ReplaceCharIsRemove | app.py:112 | replacing a one-character text by nothing removes every occurrence of that character |
| Matchers.MatchesRemoveSpaces | app.py:112 | removing the spaces from a frequency match leaves a match |
| Matchers.MatchesWithoutSpaces | app.py:112 | removing the spaces from a match whose only whitespace is spaces matches the pattern without its whitespace runs |
| Matchers.CanonicalFrequency | app.py:112 | a frequency match whose whitespace is all spaces becomes exactly five characters `d-d-d`, whose three digits are the digits of the match, in order |
| Matchers.DigitsOfFrequency | app.py:112 | the digits of a `d-d-d` text are its first, third and fifth characters |
| Strings.RemoveCharKeepsDigits | app.py:112 | removing a character that is not a digit keeps every digit, in order |
| Matchers.CanonicalFrequencyExample | app.py:112 | the match `2 - 1 - 1` becomes `2-1-1` |
| Properties.StepBuffer | app.py:115-122 | a step keeps the buffer, empties it only on a frequency line, or appends the line it reads; that line is then unused, bufferable, and differs from the current patient and doctor names |
| Properties.BufferAppendOnly | app.py:115-122 | between two frequency lines the buffer only grows: the buffer after `a` lines is a prefix of the buffer after `n` lines when no frequency line is read in between |
| Properties.FrequencyEmptiesBuffer | app.py:115 | the buffer is empty after every frequency line, whether or not a medicine was appended |
| Properties.StepKeepsBufferable | app.py:119-122 | a step only buffers a line that no earlier rule takes and that is not a header |
| Properties.RunToKeepsBufferable | app.py:119-122 | reading one more line keeps every buffered fragment bufferable |
| Properties.BufferOnlyBufferable | app.py:119-122 | after any number of lines, every buffered fragment is bufferable |
| Properties.AllBufferableMembers | app.py:119-122 | the backward check of the buffer checks every fragment |
| Parser.IsBuffered | app.py:119-121 | definition, no contract: the upper-cased line is no header and no `TAB` or `CAP`, and the line differs from the current patient and doctor names |
| Properties.StepKeepsBufferWithin | app.py:119-122 | a step adds to the buffer only the line it reads |
| Properties.RunToKeepsWithin | app.py:119-122 | reading line `n - 1` adds to the buffer at most that line |
| Properties.BufferFilledFrom | app.py:115-122 | once the buffer is empty, it only takes lines read after that point |
| Properties.BufferHoldsReadLines | app.py:119-122 | after `n` lines, the buffer holds only lines already read, all of them bufferable |
| Properties.BufferAfterFrequency | app.py:115-122 | after a frequency line, the buffer holds only lines read after it |
| Properties.StepMedicinesOther | app.py:79-116 | only a frequency line changes the list of medicines |
| Properties.AssembledMedicineShape | app.py:108-113 | a medicine assembled on a frequency line is well formed: its frequency matches the pattern and has no space, its name has no comma at either end, and its dosage has no upper-case letter |
| Properties.StepMedicinesFrequency | app.py:108-113 | a frequency line appends at most one well-formed medicine |
| Properties.StepMedicines | app.py:79-116 | a step appends at most one medicine, and only on a frequency line |
| Properties.MedicinesAppendOnly | app.py:109 | the medicines after `a` lines are a prefix of those after `n >= a` lines |
| Properties.MedicineCount | app.py:108-113 | there are at most as many medicines as lines on which the pass applies the frequency rule, that is, unused lines that are neither patient labels nor doctor lines and contain a frequency match |
| Properties.StepKeepsShape | app.py:108-113 | a step keeps every medicine well formed |
| Properties.RunToKeepsShape | app.py:108-113 | reading one more line keeps every medicine well formed |
| Properties.MedicineShape | app.py:108-113 | every medicine in the state after any number of lines is well formed |
| Properties.AllWellFormedMembers | app.py:108-113 | the backward check of the medicines checks every medicine |
| Examples.DoctorNameExample | app.py:73-75 | `Dr: Mehta MBBS` is a doctor line, and its doctor name is `Mehta` |
| Examples.DoctorLineByTitle | app.py:73 | a line starting with `Dr:` or `Dr.` in any case is a doctor line |
| Examples.CaseSensitiveTitleExample | app.py:73-75 | `DR. Mehta` is a doctor line, but the title removal is case-sensitive, so its doctor name is `DR. Mehta` |
| Examples.PatientLookaheadExample | app.py:57-70 | over `PT`, `Nme:`, `Lakshmi Rao`, the patient name is `Lakshmi Rao`, exactly lines 1 and 2 are used, and nothing is buffered |
| Examples.LabelThenBareLabelThenName | app.py:53-70 | over a patient label, a bare label and a name, the pass takes the name, uses the two later lines, and buffers nothing |
| Examples.LabelSkipsBareLabel | app.py:57-70 | a patient label followed by a bare label and a name marks both used and sets the name from the second |
| Examples.ParacetamolMedicine | app.py:90-113 | the buffer `Paracetamol 500moy` with the frequency match `1-0-1` gives the medicine `Paracetamol`, `500mg`, `1-0-1` |
| Examples.AssembleSingle | app.py:82-113 | a buffer of one kept, stripped fragment assembles the medicine from that fragment's name and dosage and the frequency without spaces |
| Examples.SingleFragmentText | app.py:82-90 | a buffer of one kept, stripped fragment is its own cleaned buffer and full text |
| Examples.LongFragmentKept | app.py:86 | a fragment longer than eight characters is never a label or a dosage form |
| Examples.ParacetamolDosageMatch | app.py:93 | the dosage match of `Paracetamol 500moy` is `500moy`, at positions 12 to 18 |
| Examples.ParacetamolName | app.py:101-106 | the name of `Paracetamol 500moy` is `Paracetamol` |
| Examples.ParacetamolDosage | app.py:99-100 | the dosage of `Paracetamol 500moy` is `500mg` |
| Examples.DosageRemoved | app.py:101 | a dosage text that starts with a digit, after a text with no digit, is removed entirely |
| Examples.MoyUnit | app.py:93 | the first unit alternative that begins `moy` is `moy` itself |
| Examples.NoFormPrefix | app.py:106 | a non-empty text that begins with `p` in either case begins with no dosage form |

## Left out

- `extract_text` (app.py:21-34) is not modelled. It is an OpenCV image read followed by a PaddleOCR model call, both foreign. The model takes the OCR text as its input.
- The module-level environment settings and OCR engine construction (app.py:8-19) are not modelled. They only configure an external library.
- The `__main__` block (app.py:126 onwards) is not modelled: console output, JSON serialisation, file writing and its catch-all exception handler are I/O.
- Characters are ASCII only. Everything that depends on character classes works in ASCII terms:
  - `\d` is `0`-`9`;
  - `\s` and `strip()` use the ASCII whitespace characters 9-13 and 28-32;
  - `upper()` and `lower()` change only `a`-`z` and `A`-`Z`.

  Python's Unicode classes and case mappings are not modelled.
- The regular-expression engine is not modelled. Each of the four patterns has its own matcher.
  - Only the frequency matcher is proved equal to a general pattern semantics.
  - The dosage and prefix matchers state, in their contracts, the leftmost and greedy choices the engine makes for those patterns.
- `Strings.ReplaceAll` requires a non-empty pattern. Python's `replace` with an empty pattern inserts the replacement everywhere. Every pattern the function uses is non-empty, because the dosage match always holds a digit.
- Properties.StepBuffer: the buffer is not proved never to hold a line equal to the current patient or doctor name. This holds only when the line is appended, not later. For example, with the lines `Paracetamol`, `PT`, `Paracetamol`, the first line is buffered and the lookahead then makes it the patient name.
- The dictionary of the source becomes the `Record` datatype, and the list of medicine dictionaries becomes a sequence of `Medicine` values. Key order and JSON shape are not modelled.
