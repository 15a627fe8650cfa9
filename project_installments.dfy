/** The installment template form of a project
    (src/components/installments/ProjectInstallments.tsx): the saved
    templates laid out as one editable row per installment type, the rows
    turned back into the records the API stores, and the choice of the
    sold reservations whose installments may be sent to SAP. */
module ProjectInstallments {

  import opened Wrappers
  import opened Text
  import opened Enums
  import opened Types
  import opened ArraySort
  import opened InstallmentSums

  const UnitAsEuro: string := "UNIT_AS_EURO"
  const UnitAsPercentage: string := "UNIT_AS_PERCENTAGE"

  /** `Object.keys(InstallmentTypes).length`: one row per installment
      type. */
  const RowCount: nat := |AllInstallmentTypes|

  const EmptyRow: InstallmentRow := InstallmentRow("", "", "", "", "", "")

  // ---------------------------------------------------------------------
  // Loading saved templates into rows

  /** The row a saved installment fills. A percentage specifier makes a
      percentage row; otherwise the amount of cents is shown as euros. The
      saved due date is shown in Finnish notation by `toFinnishDate`. */
  function FillRow(inst: ProjectInstallment, toFinnishDate: string -> string): (row: InstallmentRow)
    ensures IsFilled(row)
    ensures 0 <= Rank(row) < RowCount && AllInstallmentTypes[Rank(row)] == inst.installmentType
  {
    InstallmentTypeValueNonEmpty(inst.installmentType);
    InstallmentTypeIndexOfMember(inst.installmentType);
    var dueDate := if inst.dueDate.Some? then toFinnishDate(inst.dueDate.value) else "";
    if inst.percentageSpecifier.Present? then
      InstallmentRow(
        inst.installmentType.Value(), UnitAsPercentage,
        if inst.percentage.Present? then inst.percentage.value else "",
        inst.percentageSpecifier.value.Value(), inst.accountNumber, dueDate)
    else
      InstallmentRow(
        inst.installmentType.Value(), UnitAsEuro,
        if inst.amount.Present? then CentsText(inst.amount.value) else "",
        "", inst.accountNumber, dueDate)
  }

  /** The rows before sorting: the i-th saved installment fills the i-th
      row, the rest stay empty. */
  function LoadedRows(installments: seq<ProjectInstallment>, toFinnishDate: string -> string): (rows: seq<InstallmentRow>)
    requires |installments| <= RowCount
  {
    seq(RowCount, i requires 0 <= i < RowCount =>
      if i < |installments| then FillRow(installments[i], toFinnishDate) else EmptyRow)
  }

  /** Filling one more row. */
  lemma LoadedRowsStep(installments: seq<ProjectInstallment>, i: nat, toFinnishDate: string -> string)
    requires i < |installments| <= RowCount
    ensures LoadedRows(installments[..i + 1], toFinnishDate)
      == LoadedRows(installments[..i], toFinnishDate)[i := FillRow(installments[i], toFinnishDate)]
  {
  }

  /** The saved installments as rows, in the order they were saved. */
  function FilledRows(installments: seq<ProjectInstallment>, toFinnishDate: string -> string): (rows: seq<InstallmentRow>)
  {
    seq(|installments|, i requires 0 <= i < |installments| => FillRow(installments[i], toFinnishDate))
  }

  /** Where a row sorts: its type's position in declaration order, and
      after every type when it has none. */
  function Rank(row: InstallmentRow): int {
    if row.installmentType == "" then RowCount else InstallmentTypeIndex(row.installmentType)
  }

  /** "`a` may stay before `b`" for the sort of the loaded rows. */
  function RowOrder(): (InstallmentRow, InstallmentRow) -> bool {
    (a: InstallmentRow, b: InstallmentRow) => Rank(a) <= Rank(b)
  }

  lemma RowOrderIsTotalPreorder()
    ensures TotalPreorder(RowOrder())
  {
  }

  /** The comparator as written: two typed rows compare by the positions
      of their types, a typed row goes before an untyped one, and an
      untyped row is always put after the other row. */
  function SourceCompare(a: InstallmentRow, b: InstallmentRow): int {
    if a.installmentType != "" then
      if b.installmentType != "" then InstallmentTypeIndex(a.installmentType) - InstallmentTypeIndex(b.installmentType)
      else -1
    else 1
  }

  /** The comparator as written orders two rows as `Rank` does unless both
      rows are untyped, where it answers "after" both ways. After loading,
      untyped rows are all the empty row, so their order is immaterial. */
  lemma SourceCompareAgreesWithRank(a: InstallmentRow, b: InstallmentRow)
    ensures a.installmentType != "" || b.installmentType != "" ==>
      (SourceCompare(a, b) <= 0 <==> RowOrder()(a, b)) && (SourceCompare(a, b) < 0 <==> Rank(a) < Rank(b))
    ensures a.installmentType == "" && b.installmentType == "" ==> SourceCompare(a, b) > 0 && SourceCompare(b, a) > 0
  {
  }

  /** Rows sorted by `RowOrder` hold the typed rows in declaration order of
      their types, and every untyped row after every typed one. */
  lemma SortedRowsOrder(rows: seq<InstallmentRow>, i: int, j: int)
    requires SortedBy(rows, RowOrder()) && 0 <= i < j < |rows|
    ensures rows[i].installmentType == "" ==> rows[j].installmentType == ""
    ensures rows[i].installmentType != "" && rows[j].installmentType != "" ==>
      InstallmentTypeIndex(rows[i].installmentType) <= InstallmentTypeIndex(rows[j].installmentType)
  {
    assert RowOrder()(rows[i], rows[j]);
  }

  // ---------------------------------------------------------------------
  // Rows sent to the API

  /** A row counts as filled when its type, account number or sum has a
      value. */
  predicate IsFilled(row: InstallmentRow) {
    row.installmentType != "" || row.accountNumber != "" || row.sum != ""
  }

  /** The filled rows, in order. */
  function NonEmptyRows(rows: seq<InstallmentRow>): (kept: seq<InstallmentRow>)
    ensures forall row :: row in kept <==> row in rows && IsFilled(row)
    ensures |kept| <= |rows|
  {
    if rows == [] then []
    else (if IsFilled(rows[0]) then [rows[0]] else []) + NonEmptyRows(rows[1..])
  }

  /** Each filled row occurs among the kept rows as often as among all
      rows; unfilled rows do not occur. */
  lemma {:induction false} NonEmptyRowsCount(rows: seq<InstallmentRow>)
    ensures forall row :: multiset(NonEmptyRows(rows))[row] == if IsFilled(row) then multiset(rows)[row] else 0
  {
    if rows != [] {
      NonEmptyRowsCount(rows[1..]);
      assert rows == [rows[0]] + rows[1..];
    }
  }

  /** Filtering a permutation keeps the same rows. */
  lemma NonEmptyRowsOfPermutation(a: seq<InstallmentRow>, b: seq<InstallmentRow>)
    requires multiset(a) == multiset(b)
    ensures multiset(NonEmptyRows(a)) == multiset(NonEmptyRows(b))
  {
    NonEmptyRowsCount(a);
    NonEmptyRowsCount(b);
    assert forall row :: multiset(NonEmptyRows(a))[row] == multiset(NonEmptyRows(b))[row];
  }

  lemma {:induction false} NonEmptyRowsAppend(a: seq<InstallmentRow>, b: seq<InstallmentRow>)
    ensures NonEmptyRows(a + b) == NonEmptyRows(a) + NonEmptyRows(b)
  {
    if a == [] {
      assert a + b == b;
    } else {
      var head := if IsFilled(a[0]) then [a[0]] else [];
      var ab := a + b;
      assert ab[0] == a[0] && ab[1..] == a[1..] + b;
      NonEmptyRowsAppend(a[1..], b);
      calc {
        NonEmptyRows(ab);
        head + NonEmptyRows(a[1..] + b);
        head + (NonEmptyRows(a[1..]) + NonEmptyRows(b));
        (head + NonEmptyRows(a[1..])) + NonEmptyRows(b);
      }
    }
  }

  lemma {:induction false} NonEmptyRowsOfFilled(rows: seq<InstallmentRow>)
    requires forall i :: 0 <= i < |rows| ==> IsFilled(rows[i])
    ensures NonEmptyRows(rows) == rows
  {
    if rows != [] {
      NonEmptyRowsOfFilled(rows[1..]);
    }
  }

  lemma {:induction false} NonEmptyRowsOfEmpty(rows: seq<InstallmentRow>)
    requires forall i :: 0 <= i < |rows| ==> rows[i] == EmptyRow
    ensures NonEmptyRows(rows) == []
  {
    if rows != [] {
      NonEmptyRowsOfEmpty(rows[1..]);
    }
  }

  /** Of the loaded rows, exactly the saved installments are filled. */
  lemma NonEmptyLoadedRows(installments: seq<ProjectInstallment>, toFinnishDate: string -> string)
    requires |installments| <= RowCount
    ensures NonEmptyRows(LoadedRows(installments, toFinnishDate)) == FilledRows(installments, toFinnishDate)
  {
    var rows := LoadedRows(installments, toFinnishDate);
    var n := |installments|;
    var filled, empties := FilledRows(installments, toFinnishDate), rows[n..];
    assert rows == filled + empties;
    assert forall i :: 0 <= i < |filled| ==> IsFilled(filled[i]);
    assert forall i :: 0 <= i < |empties| ==> empties[i] == rows[n + i] == EmptyRow;
    NonEmptyRowsAppend(filled, empties);
    NonEmptyRowsOfFilled(filled);
    NonEmptyRowsOfEmpty(empties);
  }

  /** However the sort ordered the loaded rows, the rows sent are the
      saved installments, each once. */
  lemma SentRowsAreSaved(rows: seq<InstallmentRow>, installments: seq<ProjectInstallment>, toFinnishDate: string -> string)
    requires |installments| <= RowCount
    requires multiset(rows) == multiset(LoadedRows(installments, toFinnishDate))
    ensures multiset(NonEmptyRows(rows)) == multiset(FilledRows(installments, toFinnishDate))
  {
    NonEmptyRowsOfPermutation(rows, LoadedRows(installments, toFinnishDate));
    NonEmptyLoadedRows(installments, toFinnishDate);
  }

  /** The sum fields of a payload record: a flexible row names only its
      specifier, a percentage row the percentage and the specifier, any
      other row the amount. */
  datatype SumFields =
    | FlexibleOnly(specifier: string)
    | PercentageFields(percentage: SumValue, specifier: string)
    | AmountField(amount: SumValue)

  /** One installment record as the form sends it. */
  datatype ApiInstallment = ApiInstallment(
    installmentType: string, accountNumber: string, dueDate: Option<string>, sumFields: SumFields)

  /** The due date sent for the text of the date field: the ISO date
      where `parseFinnishDate` (a strict `D.M.YYYY` reading) yields one,
      null for an empty field, and the text itself otherwise. */
  function DueDateValue(text: string, parseFinnishDate: string -> Option<string>): (d: Option<string>)
    ensures d == None <==> text == "" && (parseFinnishDate(text).None? || parseFinnishDate(text) == Some(""))
    ensures parseFinnishDate(text).Some? && parseFinnishDate(text).value != "" ==> d == parseFinnishDate(text)
    ensures !(parseFinnishDate(text).Some? && parseFinnishDate(text).value != "") && text != "" ==> d == Some(text)
  {
    var formatted := parseFinnishDate(text);
    if formatted.Some? && formatted.value != "" then formatted
    else if text == "" then None
    else Some(text)
  }

  /** The record a row is sent as. */
  function RowPayload(row: InstallmentRow, parseFinnishDate: string -> Option<string>): (p: ApiInstallment)
    ensures p.installmentType == row.installmentType && p.accountNumber == row.accountNumber
    ensures p.sumFields.FlexibleOnly? <==> row.percentageSpecifier == SalesPriceFlexible.Value()
    ensures p.sumFields.PercentageFields? <==>
      row.percentageSpecifier != SalesPriceFlexible.Value() && row.unit == UnitAsPercentage
    ensures p.sumFields.PercentageFields? ==>
      p.sumFields.percentage.SumText? && p.sumFields.specifier == row.percentageSpecifier
    ensures p.sumFields.PercentageFields? ==> p.sumFields.percentage == FormattedSum(row.sum, true)
    ensures p.sumFields.AmountField? ==> p.sumFields.amount == FormattedSum(row.sum, false)
    ensures p.sumFields.FlexibleOnly? ==> p.sumFields.specifier == row.percentageSpecifier
    ensures p.dueDate == DueDateValue(row.dueDate, parseFinnishDate)
  {
    var sumFields :=
      if row.percentageSpecifier == SalesPriceFlexible.Value() then FlexibleOnly(row.percentageSpecifier)
      else if row.unit == UnitAsPercentage then PercentageFields(FormattedSum(row.sum, true), row.percentageSpecifier)
      else AmountField(FormattedSum(row.sum, false));
    ApiInstallment(row.installmentType, row.accountNumber, DueDateValue(row.dueDate, parseFinnishDate), sumFields)
  }

  /** The form data: the filled rows, each as its record. */
  function Payload(rows: seq<InstallmentRow>, parseFinnishDate: string -> Option<string>): (p: seq<ApiInstallment>)
    ensures |p| == |NonEmptyRows(rows)|
    ensures forall i :: 0 <= i < |p| ==> p[i] == RowPayload(NonEmptyRows(rows)[i], parseFinnishDate)
  {
    var kept := NonEmptyRows(rows);
    seq(|kept|, i requires 0 <= i < |kept| => RowPayload(kept[i], parseFinnishDate))
  }

  /** Loading a saved installment and sending its row back keeps its type,
      account number, due date (when the two date conversions are inverse
      on it) and amount; a flexible row keeps only its specifier and a
      percentage row sends its percentage as big.js prints it. */
  lemma SavedInstallmentRoundTrip(inst: ProjectInstallment, toFinnishDate: string -> string,
                                  parseFinnishDate: string -> Option<string>)
    requires parseFinnishDate("").None?
    requires inst.dueDate.Some? ==>
      inst.dueDate.value != "" && parseFinnishDate(toFinnishDate(inst.dueDate.value)) == Some(inst.dueDate.value)
    ensures var p := RowPayload(FillRow(inst, toFinnishDate), parseFinnishDate);
      p.installmentType == inst.installmentType.Value() && p.accountNumber == inst.accountNumber
      && p.dueDate == inst.dueDate
    ensures var p := RowPayload(FillRow(inst, toFinnishDate), parseFinnishDate);
      !inst.percentageSpecifier.Present? ==>
        p.sumFields == AmountField(if inst.amount.Present? then Cents(inst.amount.value) else SumText(""))
    ensures var p := RowPayload(FillRow(inst, toFinnishDate), parseFinnishDate);
      inst.percentageSpecifier == Present(SalesPriceFlexible) ==> p.sumFields == FlexibleOnly(SalesPriceFlexible.Value())
    ensures var p := RowPayload(FillRow(inst, toFinnishDate), parseFinnishDate);
      inst.percentageSpecifier.Present? && inst.percentageSpecifier.value != SalesPriceFlexible ==>
        p.sumFields == PercentageFields(
          FormattedSum(if inst.percentage.Present? then inst.percentage.value else "", true),
          inst.percentageSpecifier.value.Value())
  {
    if inst.amount.Present? {
      EuroRoundTrip(inst.amount.value);
    }
    assert ReplaceChar("", ',', '.') == "";
  }

  // ---------------------------------------------------------------------
  // Reservations eligible for SAP

  /** A reservation as the apartment lists load it: the fields the form
      reads. */
  datatype LoadedReservation = LoadedReservation(id: Nullable<int>, state: string)

  /** An object keyed by apartment uuid, as its entries in insertion
      order. */
  type ReservationLists = seq<(string, seq<LoadedReservation>)>

  function Keys(entries: ReservationLists): (keys: seq<string>)
    ensures |keys| == |entries| && forall i :: 0 <= i < |entries| ==> keys[i] == entries[i].0
  {
    seq(|entries|, i requires 0 <= i < |entries| => entries[i].0)
  }

  /** The value stored under `key`. */
  function Lookup(entries: ReservationLists, key: string): (v: Option<seq<LoadedReservation>>)
    ensures v.None? <==> key !in Keys(entries)
  {
    if entries == [] then None
    else if entries[|entries| - 1].0 == key then Some(entries[|entries| - 1].1)
    else
      assert Keys(entries[..|entries| - 1]) == Keys(entries)[..|entries| - 1];
      Lookup(entries[..|entries| - 1], key)
  }

  /** `{ ...prev, [key]: value }`: a key already present keeps its place
      and takes the new value; a new key goes last. */
  function Upsert(entries: ReservationLists, key: string, value: seq<LoadedReservation>): (r: ReservationLists)
    ensures Keys(r) == if key in Keys(entries) then Keys(entries) else Keys(entries) + [key]
    ensures Lookup(r, key) == Some(value)
    ensures forall k :: k != key ==> Lookup(r, k) == Lookup(entries, k)
  {
    if key in Keys(entries) then ReplaceValue(entries, key, value)
    else
      var r := entries + [(key, value)];
      assert r[..|r| - 1] == entries;
      assert Keys(r) == Keys(entries) + [key];
      r
  }

  /** The entries with the value under `key` replaced, in place. */
  function ReplaceValue(entries: ReservationLists, key: string, value: seq<LoadedReservation>): (r: ReservationLists)
    ensures Keys(r) == Keys(entries)
    ensures key in Keys(entries) ==> Lookup(r, key) == Some(value)
    ensures forall k :: k != key ==> Lookup(r, k) == Lookup(entries, k)
  {
    if entries == [] then []
    else
      var init := entries[..|entries| - 1];
      var last := entries[|entries| - 1];
      var r := ReplaceValue(init, key, value) + [if last.0 == key then (key, value) else last];
      assert r[..|r| - 1] == ReplaceValue(init, key, value);
      assert Keys(init) == Keys(entries)[..|entries| - 1];
      assert Keys(r)[..|r| - 1] == Keys(ReplaceValue(init, key, value));
      r
  }

  /** `Object.values(lists).flat()`. */
  function Flatten(entries: ReservationLists): (all: seq<LoadedReservation>)
    ensures |entries| > 0 ==> all == Flatten(entries[..|entries| - 1]) + entries[|entries| - 1].1
  {
    if entries == [] then [] else Flatten(entries[..|entries| - 1]) + entries[|entries| - 1].1
  }

  /** The ids of the reservations with a truthy id, as text, in order. */
  function IdsOf(reservations: seq<LoadedReservation>): (ids: seq<string>)
    ensures forall i :: 0 <= i < |ids| ==> ParseInt(ids[i]).Some? && ParseInt(ids[i]).value != 0
    ensures forall n :: IntToString(n) in ids <==> exists r :: r in reservations && IsTruthyInt(r.id) && r.id.value == n
  {
    if reservations == [] then []
    else
      var r := reservations[|reservations| - 1];
      var init := IdsOf(reservations[..|reservations| - 1]);
      assert reservations == reservations[..|reservations| - 1] + [r];
      if IsTruthyInt(r.id) then
        IntToStringRoundTrip(r.id.value);
        forall n ensures IntToString(n) == IntToString(r.id.value) <==> n == r.id.value {
          if IntToString(n) == IntToString(r.id.value) {
            IntToStringInjective(n, r.id.value);
          }
        }
        init + [IntToString(r.id.value)]
      else init
  }

  /** Adding a reservation at the end adds its id, when truthy, at the
      end. */
  lemma IdsOfSnoc(xs: seq<LoadedReservation>, r: LoadedReservation)
    ensures IdsOf(xs + [r]) == IdsOf(xs) + if IsTruthyInt(r.id) then [IntToString(r.id.value)] else []
  {
    var xr := xs + [r];
    assert xr[..|xr| - 1] == xs && xr[|xr| - 1] == r;
  }

  /** The ids of a concatenation are the ids of each part: order and
      repetitions are kept. */
  lemma {:induction false} IdsOfAppend(xs: seq<LoadedReservation>, ys: seq<LoadedReservation>)
    ensures IdsOf(xs + ys) == IdsOf(xs) + IdsOf(ys)
    decreases |ys|
  {
    if ys == [] {
      assert xs + ys == xs;
    } else {
      var init, y := ys[..|ys| - 1], ys[|ys| - 1];
      assert ys == init + [y];
      assert xs + ys == (xs + init) + [y];
      IdsOfSnoc(xs + init, y);
      IdsOfSnoc(init, y);
      IdsOfAppend(xs, init);
      var last := if IsTruthyInt(y.id) then [IntToString(y.id.value)] else [];
      calc {
        IdsOf(xs + ys);
        IdsOf(xs + init) + last;
        (IdsOf(xs) + IdsOf(init)) + last;
        IdsOf(xs) + (IdsOf(init) + last);
        IdsOf(xs) + IdsOf(ys);
      }
    }
  }

  /** One reservation gives its id as text exactly when the id is truthy. */
  lemma IdsOfOne(r: LoadedReservation)
    ensures IdsOf([r]) == if IsTruthyInt(r.id) then [IntToString(r.id.value)] else []
  {
    assert [r][..0] == [];
  }

  /** `reservationMap`: each reservation under its id, a later one with
      the same id replacing an earlier one. */
  function MapOf(reservations: seq<LoadedReservation>): (m: map<Nullable<int>, LoadedReservation>)
  {
    if reservations == [] then map[]
    else
      var r := reservations[|reservations| - 1];
      MapOf(reservations[..|reservations| - 1])[r.id := r]
  }

  /** Position `i` holds the last reservation with `id`. */
  predicate IsLastWithId(reservations: seq<LoadedReservation>, id: Nullable<int>, i: int) {
    0 <= i < |reservations| && reservations[i].id == id
    && forall j :: i < j < |reservations| ==> reservations[j].id != id
  }

  /** An id is in the map exactly when some reservation has it, and it maps
      to the last reservation with that id. */
  lemma {:induction false} MapOfLastWins(reservations: seq<LoadedReservation>, id: Nullable<int>)
    ensures id in MapOf(reservations) <==> exists i :: 0 <= i < |reservations| && reservations[i].id == id
    ensures id in MapOf(reservations) ==>
      exists i :: IsLastWithId(reservations, id, i) && MapOf(reservations)[id] == reservations[i]
  {
    if reservations != [] {
      var n := |reservations| - 1;
      var last, init := reservations[n], reservations[..n];
      assert MapOf(reservations) == MapOf(init)[last.id := last];
      MapOfLastWins(init, id);
      if last.id == id {
        assert IsLastWithId(reservations, id, n);
      } else {
        if id in MapOf(init) {
          var i :| IsLastWithId(init, id, i) && MapOf(init)[id] == init[i];
          forall j | i < j < |reservations|
            ensures reservations[j].id != id
          {
            if j < n {
              assert reservations[j] == init[j];
            }
          }
          assert reservations[i] == init[i];
        }
        if exists i :: 0 <= i < |reservations| && reservations[i].id == id {
          var i :| 0 <= i < |reservations| && reservations[i].id == id;
          assert i < n && init[i].id == id;
        }
      }
    }
  }

  /** Fills the map in two nested loops, apartment list by apartment list
      and reservation by reservation. */
  method BuildReservationMap(entries: ReservationLists) returns (m: map<Nullable<int>, LoadedReservation>)
    ensures m == MapOf(Flatten(entries))
  {
    m := map[];
    var i := 0;
    while i < |entries|
      invariant 0 <= i <= |entries|
      invariant m == MapOf(Flatten(entries[..i]))
    {
      var list := entries[i].1;
      ghost var done := Flatten(entries[..i]);
      var j := 0;
      assert done + list[..0] == done;
      while j < |list|
        invariant 0 <= j <= |list|
        invariant m == MapOf(done + list[..j])
      {
        MapOfExtend(done, list, j);
        m := m[list[j].id := list[j]];
        j := j + 1;
      }
      assert entries[..i + 1][..i] == entries[..i];
      assert list[..j] == list;
      i := i + 1;
    }
    assert entries[..i] == entries;
  }

  /** One more reservation of the current list goes under its id. */
  lemma MapOfExtend(done: seq<LoadedReservation>, list: seq<LoadedReservation>, j: int)
    requires 0 <= j < |list|
    ensures MapOf(done + list[..j + 1]) == MapOf(done + list[..j])[list[j].id := list[j]]
  {
    assert list[..j + 1] == list[..j] + [list[j]];
    assert done + list[..j + 1] == (done + list[..j]) + [list[j]];
    MapOfSnoc(done + list[..j], list[j]);
  }

  /** Adding a reservation at the end puts it under its id. */
  lemma MapOfSnoc(reservations: seq<LoadedReservation>, r: LoadedReservation)
    ensures MapOf(reservations + [r]) == MapOf(reservations)[r.id := r]
  {
    assert (reservations + [r])[..|reservations|] == reservations;
  }

  /** The SAP filter on one id: it reads as a number, installments are
      loaded for it, and the reservation mapped to it is sold. */
  predicate IsSapCandidate(id: string, m: map<Nullable<int>, LoadedReservation>, installmentsData: map<int, nat>) {
    match ParseInt(id)
    case None => false
    case Some(n) =>
      n in installmentsData && installmentsData[n] > 0 && Present(n) in m && m[Present(n)].state == "sold"
  }

  /** The ids that pass the SAP filter, in order. */
  function Eligible(ids: seq<string>, m: map<Nullable<int>, LoadedReservation>, installmentsData: map<int, nat>): (kept: seq<string>)
    ensures forall id :: id in kept <==> id in ids && IsSapCandidate(id, m, installmentsData)
    ensures forall i :: 0 <= i < |kept| ==> ParseInt(kept[i]).Some?
    ensures |kept| <= |ids|
  {
    if ids == [] then []
    else (if IsSapCandidate(ids[0], m, installmentsData) then [ids[0]] else []) + Eligible(ids[1..], m, installmentsData)
  }

  /** Filtering a concatenation filters each part: the candidates keep
      the order and the repetitions of the ids. */
  lemma {:induction false} EligibleAppend(xs: seq<string>, ys: seq<string>,
                                          m: map<Nullable<int>, LoadedReservation>, installmentsData: map<int, nat>)
    ensures Eligible(xs + ys, m, installmentsData) == Eligible(xs, m, installmentsData) + Eligible(ys, m, installmentsData)
  {
    if xs == [] {
      assert xs + ys == ys;
    } else {
      var head := if IsSapCandidate(xs[0], m, installmentsData) then [xs[0]] else [];
      var xys := xs + ys;
      assert xys[0] == xs[0] && xys[1..] == xs[1..] + ys;
      EligibleAppend(xs[1..], ys, m, installmentsData);
      calc {
        Eligible(xys, m, installmentsData);
        head + Eligible(xs[1..] + ys, m, installmentsData);
        head + (Eligible(xs[1..], m, installmentsData) + Eligible(ys, m, installmentsData));
        (head + Eligible(xs[1..], m, installmentsData)) + Eligible(ys, m, installmentsData);
      }
    }
  }

  /** One id is kept exactly when it is a SAP candidate. */
  lemma EligibleOfOne(id: string, m: map<Nullable<int>, LoadedReservation>, installmentsData: map<int, nat>)
    ensures Eligible([id], m, installmentsData) == if IsSapCandidate(id, m, installmentsData) then [id] else []
  {
    assert [id][1..] == [];
  }

  /** A reservation id is a SAP candidate exactly when it is one of the
      loaded ids, installments are loaded for it and the last loaded
      reservation with that id is sold. */
  lemma SapCandidateIff(ids: seq<string>, entries: ReservationLists, installmentsData: map<int, nat>, id: string)
    ensures id in Eligible(ids, MapOf(Flatten(entries)), installmentsData) <==>
      id in ids && ParseInt(id).Some? && var n := ParseInt(id).value;
      n in installmentsData && installmentsData[n] > 0
      && exists i :: IsLastWithId(Flatten(entries), Present(n), i) && Flatten(entries)[i].state == "sold"
  {
    var all := Flatten(entries);
    if ParseInt(id).Some? {
      var n := ParseInt(id).value;
      MapOfLastWins(all, Present(n));
      if exists i :: IsLastWithId(all, Present(n), i) && all[i].state == "sold" {
        var i :| IsLastWithId(all, Present(n), i) && all[i].state == "sold";
        var k :| IsLastWithId(all, Present(n), k) && MapOf(all)[Present(n)] == all[k];
        assert i == k;
      }
    }
  }

  // ---------------------------------------------------------------------
  // SAP sending

  /** A row ready for SAP: type, sum, account number and due date are all
      filled in. */
  predicate IsCompleteRow(row: InstallmentRow) {
    !IsBlank(row.dueDate) && !IsBlank(row.accountNumber) && !IsBlank(row.sum) && !IsBlank(row.installmentType)
  }

  /** One request to SAP: the installment types to send for one
      reservation. */
  datatype SapRequest = SapRequest(types: seq<string>, reservationId: int)

  /** The state of the form. */
  class InstallmentsForm {
    var inputFields: seq<InstallmentRow>
    var allReservations: ReservationLists
    var installmentsData: map<int, nat>
    var reservationIds: seq<string>
    var filteredReservations: seq<string>
    var isConfirmDialogOpen: bool

    /** Every SAP candidate is the text of a number. */
    ghost predicate Valid()
      reads this
    {
      forall i :: 0 <= i < |filteredReservations| ==> ParseInt(filteredReservations[i]).Some?
    }

    /** The form before anything has loaded. */
    constructor ()
      ensures Valid()
      ensures inputFields == [] && allReservations == [] && installmentsData == map[]
      ensures reservationIds == [] && filteredReservations == [] && !isConfirmDialogOpen
    {
      inputFields := [];
      allReservations := [];
      installmentsData := map[];
      reservationIds := [];
      filteredReservations := [];
      isConfirmDialogOpen := false;
    }

    /** The load effect: 18 empty rows, the i-th saved installment written
        field by field into the i-th row, then the rows sorted in place by
        installment type with untyped rows last. More saved installments
        than rows make the effect fail, and nothing changes. */
    method Load(installments: seq<ProjectInstallment>, toFinnishDate: string -> string) returns (ok: bool)
      modifies this
      ensures ok <==> |installments| <= RowCount
      ensures ok ==> |inputFields| == RowCount && SortedBy(inputFields, RowOrder())
      ensures ok ==> multiset(inputFields) == multiset(LoadedRows(installments, toFinnishDate))
      ensures !ok ==> inputFields == old(inputFields)
      ensures allReservations == old(allReservations) && installmentsData == old(installmentsData)
      ensures reservationIds == old(reservationIds) && filteredReservations == old(filteredReservations)
      ensures isConfirmDialogOpen == old(isConfirmDialogOpen)
    {
      if |installments| > RowCount {
        return false;
      }
      var rows := new InstallmentRow[RowCount](_ => EmptyRow);
      var i := 0;
      assert rows[..] == LoadedRows(installments[..0], toFinnishDate);
      while i < |installments|
        modifies rows
        invariant 0 <= i <= |installments|
        invariant rows[..] == LoadedRows(installments[..i], toFinnishDate)
      {
        var inst := installments[i];
        var row := rows[i];
        row := row.(installmentType := inst.installmentType.Value(), accountNumber := inst.accountNumber);
        row := row.(dueDate := if inst.dueDate.Some? then toFinnishDate(inst.dueDate.value) else "");
        if inst.percentageSpecifier.Present? {
          row := row.(sum := if inst.percentage.Present? then inst.percentage.value else "");
          row := row.(percentageSpecifier := inst.percentageSpecifier.value.Value(), unit := UnitAsPercentage);
        } else {
          row := row.(sum := if inst.amount.Present? then CentsText(inst.amount.value) else "");
          row := row.(unit := UnitAsEuro);
        }
        assert row == FillRow(inst, toFinnishDate);
        LoadedRowsStep(installments, i, toFinnishDate);
        rows[i] := row;
        i := i + 1;
      }
      assert installments[..i] == installments;
      RowOrderIsTotalPreorder();
      SortInPlace(rows, RowOrder());
      inputFields := rows[..];
      return true;
    }

    /** `handleInputChange` and `handleSelectChange`: one field of one row
        takes the new value. */
    method SetField(index: nat, field: Field, value: string)
      requires index < |inputFields|
      modifies this
      ensures inputFields == old(inputFields)[index := WithField(old(inputFields)[index], field, value)]
      ensures allReservations == old(allReservations) && installmentsData == old(installmentsData)
      ensures reservationIds == old(reservationIds) && filteredReservations == old(filteredReservations)
      ensures isConfirmDialogOpen == old(isConfirmDialogOpen)
    {
      inputFields := inputFields[index := WithField(inputFields[index], field, value)];
    }

    /** `handleReservationsLoaded`: the apartment's list is stored under
        its uuid. */
    method HandleReservationsLoaded(apartmentUuid: string, reservations: seq<LoadedReservation>)
      modifies this
      ensures allReservations == Upsert(old(allReservations), apartmentUuid, reservations)
      ensures inputFields == old(inputFields) && installmentsData == old(installmentsData)
      ensures reservationIds == old(reservationIds) && filteredReservations == old(filteredReservations)
      ensures isConfirmDialogOpen == old(isConfirmDialogOpen)
    {
      allReservations := Upsert(allReservations, apartmentUuid, reservations);
    }

    /** `handleInstallmentsLoaded`: the number of installments loaded for
        a reservation. */
    method HandleInstallmentsLoaded(reservationId: int, count: nat)
      modifies this
      ensures installmentsData == old(installmentsData)[reservationId := count]
      ensures inputFields == old(inputFields) && allReservations == old(allReservations)
      ensures reservationIds == old(reservationIds) && filteredReservations == old(filteredReservations)
      ensures isConfirmDialogOpen == old(isConfirmDialogOpen)
    {
      installmentsData := installmentsData[reservationId := count];
    }

    /** `isAllReservationsLoaded`: the lottery is completed and some
        apartment's list has loaded. */
    function AllReservationsLoaded(lotteryCompleted: bool): bool
      reads this
    {
      lotteryCompleted && |allReservations| > 0
    }

    /** The effect that collects the ids of all loaded reservations. */
    method UpdateReservationIds(lotteryCompleted: bool)
      modifies this
      ensures reservationIds ==
        if AllReservationsLoaded(lotteryCompleted) then IdsOf(Flatten(allReservations)) else old(reservationIds)
      ensures inputFields == old(inputFields) && allReservations == old(allReservations)
      ensures installmentsData == old(installmentsData) && filteredReservations == old(filteredReservations)
      ensures isConfirmDialogOpen == old(isConfirmDialogOpen)
    {
      if !AllReservationsLoaded(lotteryCompleted) {
        return;
      }
      var newReservationIds := IdsOf(Flatten(allReservations));
      if newReservationIds != reservationIds {
        reservationIds := newReservationIds;
      }
    }

    /** The effect that keeps the sold reservations with installments. It
        waits for the lottery, a loaded list and some ids. */
    method UpdateFilteredReservations(lotteryCompleted: bool)
      requires Valid()
      modifies this
      ensures Valid()
      ensures filteredReservations ==
        if AllReservationsLoaded(lotteryCompleted) && |reservationIds| > 0
        then Eligible(reservationIds, MapOf(Flatten(allReservations)), installmentsData)
        else old(filteredReservations)
      ensures inputFields == old(inputFields) && allReservations == old(allReservations)
      ensures installmentsData == old(installmentsData) && reservationIds == old(reservationIds)
      ensures isConfirmDialogOpen == old(isConfirmDialogOpen)
    {
      if !AllReservationsLoaded(lotteryCompleted) || |reservationIds| == 0 || !lotteryCompleted {
        return;
      }
      var reservationMap := BuildReservationMap(allReservations);
      var newFilteredReservations := Eligible(reservationIds, reservationMap, installmentsData);
      if newFilteredReservations != filteredReservations {
        filteredReservations := newFilteredReservations;
      }
    }

    /** `isEra6Or7Filled`: the row at position 5 or 6 is complete, and some
        reservation ids are known. */
    function IsEra6Or7Filled(): bool
      reads this
    {
      ((5 < |inputFields| && IsCompleteRow(inputFields[5])) || (6 < |inputFields| && IsCompleteRow(inputFields[6])))
      && |reservationIds| > 0
    }

    /** The SAP button shows when a late row is complete and some
        reservation is a candidate. */
    function ShowsSapButton(): bool
      reads this
    {
      IsEra6Or7Filled() && |filteredReservations| > 0
    }

    /** The types sent: `PAYMENT_6` unless row 5 has a blank due date,
        `PAYMENT_7` unless row 6 has one; a missing row counts as not
        blank. The rows' own types play no part. */
    function SelectedTypes(): (types: seq<string>)
      reads this
      ensures Payment6.Value() in types <==> !(5 < |inputFields| && IsBlank(inputFields[5].dueDate))
      ensures Payment7.Value() in types <==> !(6 < |inputFields| && IsBlank(inputFields[6].dueDate))
      ensures |types| <= 2
    {
      (if 5 < |inputFields| && IsBlank(inputFields[5].dueDate) then [] else [Payment6.Value()])
      + (if 6 < |inputFields| && IsBlank(inputFields[6].dueDate) then [] else [Payment7.Value()])
    }

    /** Whenever the SAP button shows, some installment type is sent. */
    lemma SapButtonSendsSomeType()
      requires ShowsSapButton()
      ensures |SelectedTypes()| >= 1
    {
      if 5 < |inputFields| && IsCompleteRow(inputFields[5]) {
        assert Payment6.Value() in SelectedTypes();
      } else {
        assert Payment7.Value() in SelectedTypes();
      }
    }

    /** The SAP button's click. */
    method OpenConfirmDialog()
      modifies this
      ensures isConfirmDialogOpen
      ensures inputFields == old(inputFields) && allReservations == old(allReservations)
      ensures installmentsData == old(installmentsData) && reservationIds == old(reservationIds)
      ensures filteredReservations == old(filteredReservations)
    {
      isConfirmDialogOpen := true;
    }

    /** The dialog's close and "no" buttons. */
    method CloseConfirmDialog()
      modifies this
      ensures !isConfirmDialogOpen
      ensures inputFields == old(inputFields) && allReservations == old(allReservations)
      ensures installmentsData == old(installmentsData) && reservationIds == old(reservationIds)
      ensures filteredReservations == old(filteredReservations)
    {
      isConfirmDialogOpen := false;
    }

    /** `handleConfirmSend`: the dialog closes and one request goes out per
        candidate, all with the selected types; the toast tells whether all
        of them succeeded. */
    method ConfirmSend(allSucceeded: bool) returns (requests: seq<SapRequest>, toast: Toast)
      requires Valid()
      modifies this
      ensures filteredReservations == old(filteredReservations) && Valid()
      ensures !isConfirmDialogOpen
      ensures |requests| == |filteredReservations|
      ensures forall i :: 0 <= i < |requests| ==>
        requests[i] == SapRequest(SelectedTypes(), ParseInt(filteredReservations[i]).value)
      ensures toast == if allSucceeded then SuccessToast else ErrorToast
      ensures inputFields == old(inputFields) && allReservations == old(allReservations)
      ensures installmentsData == old(installmentsData) && reservationIds == old(reservationIds)
    {
      isConfirmDialogOpen := false;
      var types := SelectedTypes();
      var ids := filteredReservations;
      requests := seq(|ids|, i requires 0 <= i < |ids| && ParseInt(ids[i]).Some? => SapRequest(types, ParseInt(ids[i]).value));
      toast := if allSucceeded then SuccessToast else ErrorToast;
    }
  }

  /** The fields of a row that the inputs and selects write. */
  datatype Field = TypeField | UnitField | SumField | SpecifierField | AccountField | DueDateField

  function FieldOf(row: InstallmentRow, field: Field): string {
    match field
    case TypeField => row.installmentType
    case UnitField => row.unit
    case SumField => row.sum
    case SpecifierField => row.percentageSpecifier
    case AccountField => row.accountNumber
    case DueDateField => row.dueDate
  }

  /** The row with one field replaced: that field holds the new value and
      every other field keeps its old one. */
  function WithField(row: InstallmentRow, field: Field, value: string): (r: InstallmentRow)
    ensures FieldOf(r, field) == value
    ensures forall other :: other != field ==> FieldOf(r, other) == FieldOf(row, other)
  {
    match field
    case TypeField => row.(installmentType := value)
    case UnitField => row.(unit := value)
    case SumField => row.(sum := value)
    case SpecifierField => row.(percentageSpecifier := value)
    case AccountField => row.(accountNumber := value)
    case DueDateField => row.(dueDate := value)
  }
}
