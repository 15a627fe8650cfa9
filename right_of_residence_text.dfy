/** src/utils/getRightOfResidenceText.ts: the text shown for an applicant's
    right-of-residence (Haso) number. */
module RightOfResidence {

  import opened Wrappers
  import opened Text

  /** The translation key of the old-batch marker. */
  const OldKey: string := "utils.getRightOfResidenceText.old"

  /** `getRightOfResidenceText(instance)` for an instance whose
      `right_of_residence` and `right_of_residence_is_old_batch` fields are
      given; `t` is the translation function. */
  function RightOfResidenceText(rightOfResidence: Nullable<int>, isOldBatch: Nullable<bool>,
                                t: string -> string): (text: string)
    ensures !IsTruthyInt(rightOfResidence) ==> text == "-"
    ensures IsTruthyInt(rightOfResidence) && isOldBatch == Present(true) ==>
      text == IntToString(rightOfResidence.value) + " (" + t(OldKey) + ")"
    ensures IsTruthyInt(rightOfResidence) && isOldBatch != Present(true) ==>
      text == IntToString(rightOfResidence.value)
    ensures text != []
  {
    if !IsTruthyInt(rightOfResidence) then "-"
    else IntToString(rightOfResidence.value)
         + (if isOldBatch == Present(true) then " (" + t(OldKey) + ")" else "")
  }

  /** The number can be read back from the text: the whole text when the
      number is not old batch, the part before the marker otherwise; and a
      number is never shown as the placeholder "-". */
  lemma RightOfResidenceTextReadBack(rightOfResidence: Nullable<int>, isOldBatch: Nullable<bool>,
                                     t: string -> string)
    requires IsTruthyInt(rightOfResidence)
    ensures var text := RightOfResidenceText(rightOfResidence, isOldBatch, t);
      var digits := IntToString(rightOfResidence.value);
      |digits| <= |text| && ParseInt(text[..|digits|]) == Some(rightOfResidence.value)
      && (isOldBatch != Present(true) ==> ParseInt(text) == Some(rightOfResidence.value))
      && text != "-"
  {
    var text := RightOfResidenceText(rightOfResidence, isOldBatch, t);
    var digits := IntToString(rightOfResidence.value);
    IntToStringRoundTrip(rightOfResidence.value);
    assert text[..|digits|] == digits;
  }

  /** The three cases of the unit tests, with the Finnish translation of the
      old-batch marker. */
  lemma RightOfResidenceTextExamples(t: string -> string)
    requires t(OldKey) == "vanha"
    ensures RightOfResidenceText(Present(12345), Present(true), t) == "12345 (vanha)"
    ensures RightOfResidenceText(Present(12345), Present(false), t) == "12345"
    ensures RightOfResidenceText(Null, Null, t) == "-"
  {
    assert IntToString(12345) == "12345" by {
      assert NatToString(12345) == NatToString(1234) + "5";
      assert NatToString(1234) == NatToString(123) + "4";
      assert NatToString(123) == NatToString(12) + "3";
      assert NatToString(12) == NatToString(1) + "2";
    }
  }
}
