/** src/components/reservations/CustomerReservationRow.tsx: one reservation
    on a customer's page, with its queue information, its cancellation
    details, the offer, contract and cancel actions, and the file name of
    the downloadable contract. */
module CustomerReservationRow {

  import opened Wrappers
  import opened Text
  import opened Enums
  import opened Types
  import opened SlugifyString
  import opened RightOfResidence

  const TPath: string := "components.reservations.CustomerReservationRow"

  // ---------------------------------------------------------------------
  // Eligibility

  /** The project's ownership type is Haso, in any letter case. */
  predicate IsOwnershipTypeHaso(r: CustomerReservation) {
    Lower(r.projectOwnershipType) == "haso"
  }

  predicate IsCanceled(r: CustomerReservation) {
    r.state == ReservationState.Canceled
  }

  predicate IsInReview(r: CustomerReservation) {
    r.state == ReservationState.Review
  }

  /** The lottery of the project is completed and the reservation is first
      in the queue. */
  predicate IsWinningReservation(r: CustomerReservation) {
    r.projectLotteryCompleted && r.queuePosition == Present(1)
  }

  predicate CanCreateOffer(r: CustomerReservation) {
    IsWinningReservation(r)
  }

  predicate CanCreateContract(r: CustomerReservation) {
    IsWinningReservation(r) && !IsInReview(r)
  }

  /** The buttons under the row. */
  datatype RowButtons = RowButtons(offer: bool, contract: bool, cancel: bool)

  /** The buttons of a reservation: none for a canceled one; otherwise
      cancel always, offer for a winning reservation, and contract for a
      winning reservation that is not in review. */
  function Buttons(r: CustomerReservation): (b: RowButtons)
    ensures IsCanceled(r) ==> !b.offer && !b.contract && !b.cancel
    ensures !IsCanceled(r) ==> b.cancel
    ensures b.offer <==> !IsCanceled(r) && r.projectLotteryCompleted && r.queuePosition == Present(1)
    ensures b.contract <==>
      !IsCanceled(r) && r.projectLotteryCompleted && r.queuePosition == Present(1) && r.state != ReservationState.Review
  {
    if IsCanceled(r) then RowButtons(false, false, false)
    else RowButtons(CanCreateOffer(r), CanCreateContract(r), true)
  }

  /** A contract can only be created where an offer can. */
  lemma ContractOnlyWhereOffer(r: CustomerReservation)
    ensures Buttons(r).contract ==> Buttons(r).offer
    ensures Buttons(r).offer && !Buttons(r).contract ==> r.state == ReservationState.Review
  {
  }

  /** The translation key of the contract button. */
  function ContractButtonKey(r: CustomerReservation): (key: string)
    ensures IsOwnershipTypeHaso(r) <==> key == TPath + ".createContract"
    ensures !IsOwnershipTypeHaso(r) <==> key == TPath + ".createDeedOfSale"
  {
    if IsOwnershipTypeHaso(r) then TPath + ".createContract" else TPath + ".createDeedOfSale"
  }

  // ---------------------------------------------------------------------
  // The latest cancellation

  function Reverse<T>(s: seq<T>): (r: seq<T>)
    ensures |r| == |s|
    ensures forall i :: 0 <= i < |s| ==> r[i] == s[|s| - 1 - i]
  {
    if s == [] then [] else Reverse(s[1..]) + [s[0]]
  }

  /** `events.find(e => e.state === CANCELED)`. */
  function FindCanceled(events: seq<StateChangeEvent>): (found: Option<StateChangeEvent>)
    ensures found.Some? ==> found.value in events && found.value.state == ReservationState.Canceled
    ensures found.None? <==> forall j :: 0 <= j < |events| ==> events[j].state != ReservationState.Canceled
  {
    if events == [] then None
    else if events[0].state == ReservationState.Canceled then Some(events[0])
    else FindCanceled(events[1..])
  }

  /** `getLatestCancelStateEvent`: `events?.slice().reverse().find(...)`. */
  function LatestCancelEvent(events: Nullable<seq<StateChangeEvent>>): Option<StateChangeEvent> {
    if events.Present? then FindCanceled(Reverse(events.value)) else None
  }

  /** The position of the last canceled event, or -1. */
  function LastCanceledIndex(events: seq<StateChangeEvent>): (k: int)
    ensures -1 <= k < |events|
    ensures k >= 0 ==> events[k].state == ReservationState.Canceled
    ensures forall j :: k < j < |events| ==> events[j].state != ReservationState.Canceled
  {
    if events == [] then -1
    else if events[|events| - 1].state == ReservationState.Canceled then |events| - 1
    else LastCanceledIndex(events[..|events| - 1])
  }

  /** `find` returns the element at the first position that matches. */
  lemma {:induction false} FindCanceledIsFirst(events: seq<StateChangeEvent>, k: int)
    requires 0 <= k < |events| && events[k].state == ReservationState.Canceled
    requires forall j :: 0 <= j < k ==> events[j].state != ReservationState.Canceled
    ensures FindCanceled(events) == Some(events[k])
  {
    if k > 0 {
      FindCanceledIsFirst(events[1..], k - 1);
    }
  }

  lemma {:induction false} FindCanceledNone(events: seq<StateChangeEvent>)
    requires forall j :: 0 <= j < |events| ==> events[j].state != ReservationState.Canceled
    ensures FindCanceled(events) == None
  {
    if events != [] {
      FindCanceledNone(events[1..]);
    }
  }

  /** The latest cancel event is the last canceled event of the history,
      and there is none exactly when the history is missing or has no
      canceled event. */
  lemma LatestCancelEventIsLastCanceled(events: seq<StateChangeEvent>)
    ensures var k := LastCanceledIndex(events);
      LatestCancelEvent(Present(events)) == if k >= 0 then Some(events[k]) else None
  {
    var k := LastCanceledIndex(events);
    var rev := Reverse(events);
    if k >= 0 {
      var m := |events| - 1 - k;
      assert rev[m] == events[k];
      forall j | 0 <= j < m
        ensures rev[j].state != ReservationState.Canceled
      {
        assert rev[j] == events[|events| - 1 - j];
      }
      FindCanceledIsFirst(rev, m);
    } else {
      forall j | 0 <= j < |rev|
        ensures rev[j].state != ReservationState.Canceled
      {
        assert rev[j] == events[|events| - 1 - j];
      }
      FindCanceledNone(rev);
    }
  }

  lemma LatestCancelEventOfMissingHistory(events: Nullable<seq<StateChangeEvent>>)
    requires !events.Present?
    ensures LatestCancelEvent(events) == None
  {
  }

  /** What the row shows for a canceled reservation. */
  datatype CancelDetails =
    | PlainCanceled
    | Detailed(reasonKey: Option<string>, timestamp: Option<string>, comment: string)

  /** `renderCancelDetails`: the plain "canceled" text when there is no
      canceled event in the history; otherwise the text with the reason of
      the latest such event (when it has one), its timestamp (when not
      empty) and its comment. */
  function CancelDetailsOf(r: CustomerReservation): (d: CancelDetails)
    ensures d == PlainCanceled <==> LatestCancelEvent(r.stateChangeEvents) == None
    ensures d.Detailed? ==>
      var e := LatestCancelEvent(r.stateChangeEvents).value;
      e.state == ReservationState.Canceled && d.comment == e.comment
      && (d.reasonKey.Some? <==> e.cancellationReason.Present?)
      && (d.reasonKey.Some? ==>
            d.reasonKey.value == "ENUMS.ReservationCancelReasons." + e.cancellationReason.value.Name())
      && (d.timestamp.Some? <==> e.timestamp != "")
      && (d.timestamp.Some? ==> d.timestamp.value == e.timestamp)
  {
    var latest := LatestCancelEvent(r.stateChangeEvents);
    if latest.None? || EventsEmpty(r.stateChangeEvents) then PlainCanceled
    else
      var e := latest.value;
      FindCanceledFound(Reverse(r.stateChangeEvents.value));
      Detailed(
        if e.cancellationReason.Present?
        then Some("ENUMS.ReservationCancelReasons." + e.cancellationReason.value.Name()) else None,
        if e.timestamp != "" then Some(e.timestamp) else None,
        e.comment)
  }

  /** `isEmpty(events)`: missing, null or empty. */
  predicate EventsEmpty(events: Nullable<seq<StateChangeEvent>>) {
    !events.Present? || events.value == []
  }

  lemma {:induction false} FindCanceledFound(events: seq<StateChangeEvent>)
    ensures FindCanceled(events).Some? ==>
      FindCanceled(events).value.state == ReservationState.Canceled && events != []
  {
    if events != [] && events[0].state != ReservationState.Canceled {
      FindCanceledFound(events[1..]);
    }
  }

  // ---------------------------------------------------------------------
  // Queue, priority and state texts

  /** `renderQueuePosition`: before the lottery the "lottery uncompleted"
      text, after it the queue position as a template literal. */
  function QueuePositionText(r: CustomerReservation): (pieces: seq<Piece>)
    ensures !r.projectLotteryCompleted ==> pieces == [Key(TPath + ".lotteryUncompleted")]
    ensures r.projectLotteryCompleted ==>
      pieces == [Plain(TemplateInt(r.queuePosition) + ". "), Key(TPath + ".position")]
  {
    if !r.projectLotteryCompleted then [Key(TPath + ".lotteryUncompleted")]
    else [Plain(TemplateInt(r.queuePosition) + ". "), Key(TPath + ".position")]
  }

  /** The queue position cell of the detail table: "N." only when the
      lottery is completed and the position is not 0 or missing. */
  function DetailQueuePosition(r: CustomerReservation): (cell: Piece)
    ensures cell.Plain? <==> r.projectLotteryCompleted && IsTruthyInt(r.queuePosition)
    ensures cell.Plain? ==> cell.text == IntToString(r.queuePosition.value) + "."
    ensures cell.Key? ==> cell.key == TPath + ".noPositionNumber"
  {
    if r.projectLotteryCompleted && IsTruthyInt(r.queuePosition)
    then Plain(IntToString(r.queuePosition.value) + ".")
    else Key(TPath + ".noPositionNumber")
  }

  /** The lottery position cell of the detail table. */
  function DetailLotteryPosition(r: CustomerReservation): (cell: Piece)
    ensures cell.Plain? <==> IsTruthyInt(r.lotteryPosition)
    ensures cell.Plain? ==> cell.text == IntToString(r.lotteryPosition.value) + "."
  {
    if IsTruthyInt(r.lotteryPosition) then Plain(IntToString(r.lotteryPosition.value) + ".")
    else Key(TPath + ".noPositionNumber")
  }

  /** `renderPriorityNumber`: any number that is not null or undefined,
      0 included. */
  function RowPriority(priority: Nullable<int>): (text: string)
    ensures priority.Present? ==> text == IntToString(priority.value)
    ensures !priority.Present? ==> text == "-"
  {
    if priority.Present? then IntToString(priority.value) else "-"
  }

  /** The priority cell of the detail table, which tests truthiness. */
  function DetailPriority(priority: Nullable<int>): (text: string)
    ensures IsTruthyInt(priority) ==> text == IntToString(priority.value)
    ensures !IsTruthyInt(priority) ==> text == "-"
  {
    if IsTruthyInt(priority) then IntToString(priority.value) else "-"
  }

  /** The row and the detail table disagree exactly on priority 0. */
  lemma PriorityTextsDifferOnlyOnZero(priority: Nullable<int>)
    ensures RowPriority(priority) != DetailPriority(priority) <==> priority == Present(0)
  {
    if priority == Present(0) {
      assert IntToString(0) == "0";
    }
  }

  /** `renderApartmentReservationState`: the state's name, with the
      "waiting for lottery" suffix exactly for a submitted reservation whose
      project lottery is not completed. */
  function StateText(r: CustomerReservation): (pieces: seq<Piece>)
    ensures |pieces| >= 1 && pieces[0] == Key("ENUMS.ApartmentReservationStates." + r.state.Name())
    ensures |pieces| > 1 <==> !r.projectLotteryCompleted && r.state == ReservationState.Submitted
    ensures |pieces| > 1 ==> pieces[1..] == [Plain(" ("), Key(TPath + ".waitingForLottery"), Plain(")")]
  {
    var stateText := Key("ENUMS.ApartmentReservationStates." + r.state.Name());
    if !r.projectLotteryCompleted && r.state == ReservationState.Submitted
    then [stateText, Plain(" ("), Key(TPath + ".waitingForLottery"), Plain(")")]
    else [stateText]
  }

  /** The left part of the row. */
  datatype RowSummary =
    | CanceledSummary(details: CancelDetails)
    | ActiveSummary(queue: seq<Piece>, priority: string, hasoNumber: Option<string>, submittedLateMark: bool)

  /** A canceled reservation shows its cancel details and no queue
      information; any other shows its queue position, its priority and, in
      a Haso project, the customer's right-of-residence number. */
  function Summary(r: CustomerReservation, customer: Customer, t: string -> string): (s: RowSummary)
    ensures s.CanceledSummary? <==> IsCanceled(r)
    ensures s.CanceledSummary? ==> s.details == CancelDetailsOf(r)
    ensures s.ActiveSummary? ==>
      s.queue == QueuePositionText(r) && s.priority == RowPriority(r.priorityNumber)
      && (s.hasoNumber.Some? <==> IsOwnershipTypeHaso(r))
      && (s.hasoNumber.Some? ==>
            s.hasoNumber.value == RightOfResidenceText(customer.rightOfResidence, customer.rightOfResidenceIsOldBatch, t))
      && s.submittedLateMark == (IsOwnershipTypeHaso(r) && r.submittedLate)
  {
    if IsCanceled(r) then CanceledSummary(CancelDetailsOf(r))
    else ActiveSummary(
      QueuePositionText(r),
      RowPriority(r.priorityNumber),
      if IsOwnershipTypeHaso(r)
      then Some(RightOfResidenceText(customer.rightOfResidence, customer.rightOfResidenceIsOldBatch, t))
      else None,
      IsOwnershipTypeHaso(r) && r.submittedLate)
  }

  // ---------------------------------------------------------------------
  // Contract file name

  /** `.replace(/[^a-z0-9 ]/g, '')`. */
  function KeepLowerAlnumSpace(s: string): (r: string)
    ensures forall i :: 0 <= i < |r| ==> 'a' <= r[i] <= 'z' || '0' <= r[i] <= '9' || r[i] == ' '
  {
    if s == [] then []
    else if 'a' <= s[0] <= 'z' || '0' <= s[0] <= '9' || s[0] == ' ' then [s[0]] + KeepLowerAlnumSpace(s[1..])
    else KeepLowerAlnumSpace(s[1..])
  }

  /** Filtering a concatenation filters each part. */
  lemma {:induction false} KeepLowerAlnumSpaceAppend(a: string, b: string)
    ensures KeepLowerAlnumSpace(a + b) == KeepLowerAlnumSpace(a) + KeepLowerAlnumSpace(b)
  {
    if a == [] {
      assert a + b == b;
    } else {
      var ab := a + b;
      assert ab[0] == a[0] && ab[1..] == a[1..] + b;
      KeepLowerAlnumSpaceAppend(a[1..], b);
    }
  }

  /** A single character is kept exactly when it is in `[a-z0-9 ]`. */
  lemma KeepLowerAlnumSpaceOfChar(c: char)
    ensures KeepLowerAlnumSpace([c]) == if 'a' <= c <= 'z' || '0' <= c <= '9' || c == ' ' then [c] else []
  {
    assert [c][1..] == [];
  }

  /** The text after its leading run of white space. */
  function DropWhitespace(s: string): (r: string)
    ensures |r| <= |s| && r == s[|s| - |r|..]
    ensures r == [] || !IsWhitespace(r[0])
  {
    if s != [] && IsWhitespace(s[0]) then DropWhitespace(s[1..]) else s
  }

  /** `.replace(/\s+/g, '-')`. */
  function HyphenateWhitespaceRuns(s: string): (r: string)
    ensures r == [] <==> s == []
    ensures s != [] ==> r[0] == if IsWhitespace(s[0]) then '-' else s[0]
    ensures forall i :: 0 <= i < |r| ==> r[i] == '-' || (r[i] in s && !IsWhitespace(r[i]))
    ensures forall i :: 0 <= i < |r| - 1 && r[i] == '-' ==> r[i + 1] in s && !IsWhitespace(r[i + 1])
    decreases |s|
  {
    if s == [] then []
    else if IsWhitespace(s[0]) then
      var rest := DropWhitespace(s[1..]);
      var tail := HyphenateWhitespaceRuns(rest);
      HyphenateStep(s, rest, '-', tail);
      ['-'] + tail
    else
      var tail := HyphenateWhitespaceRuns(s[1..]);
      HyphenateStep(s, s[1..], s[0], tail);
      [s[0]] + tail
  }

  /** One step of `HyphenateWhitespaceRuns`: putting the run's `-` (or the
      character itself) in front of the hyphenated rest keeps its shape. */
  lemma HyphenateStep(s: string, rest: string, head: char, tail: string)
    requires s != [] && |rest| < |s| && rest == s[|s| - |rest|..]
    requires head == if IsWhitespace(s[0]) then '-' else s[0]
    requires IsWhitespace(s[0]) ==> rest == [] || !IsWhitespace(rest[0])
    requires tail == [] <==> rest == []
    requires rest != [] ==> tail[0] == if IsWhitespace(rest[0]) then '-' else rest[0]
    requires forall i :: 0 <= i < |tail| ==> tail[i] == '-' || (tail[i] in rest && !IsWhitespace(tail[i]))
    requires forall i :: 0 <= i < |tail| - 1 && tail[i] == '-' ==> tail[i + 1] in rest && !IsWhitespace(tail[i + 1])
    ensures forall i :: 0 <= i < |[head] + tail| ==>
      ([head] + tail)[i] == '-' || (([head] + tail)[i] in s && !IsWhitespace(([head] + tail)[i]))
    ensures forall i :: 0 <= i < |[head] + tail| - 1 && ([head] + tail)[i] == '-' ==>
      ([head] + tail)[i + 1] in s && !IsWhitespace(([head] + tail)[i + 1])
  {
    var r := [head] + tail;
    forall c | c in rest
      ensures c in s
    {
      var k :| 0 <= k < |rest| && rest[k] == c;
      assert s[|s| - |rest| + k] == c;
    }
    forall i | 0 <= i < |r|
      ensures r[i] == '-' || (r[i] in s && !IsWhitespace(r[i]))
    {
      if i > 0 {
        assert r[i] == tail[i - 1];
      }
    }
    forall i | 0 <= i < |r| - 1 && r[i] == '-'
      ensures r[i + 1] in s && !IsWhitespace(r[i + 1])
    {
      assert r[i + 1] == tail[i];
      if i == 0 && IsWhitespace(s[0]) {
        assert tail[0] == rest[0];
      }
    }
  }

  /** The `slugify` written inside `getContractFileName`. */
  function ContractSlug(text: string): string {
    HyphenateWhitespaceRuns(KeepLowerAlnumSpace(Trim(Fold(text))))
  }

  /** The contract slug is made of `a-z`, `0-9` and `-`, never with two `-`
      in a row. */
  lemma ContractSlugShape(text: string)
    ensures AllSlugChars(ContractSlug(text)) && NoDoubleHyphen(ContractSlug(text))
  {
    var k := KeepLowerAlnumSpace(Trim(Fold(text)));
    var slug := ContractSlug(text);
    forall i | 0 <= i < |slug|
      ensures IsSlugChar(slug[i])
    {
      if slug[i] != '-' {
        assert slug[i] in k;
      }
    }
    forall i | 0 <= i < |slug| - 1
      ensures !(slug[i] == '-' && slug[i + 1] == '-')
    {
      if slug[i] == '-' {
        assert slug[i + 1] in k;
      }
    }
  }

  /** A run of white space is dropped up to the first other character. */
  lemma {:induction false} DropWhitespaceOfRun(w: string, y: string)
    requires forall i :: 0 <= i < |w| ==> IsWhitespace(w[i])
    requires y == [] || !IsWhitespace(y[0])
    ensures DropWhitespace(w + y) == y
  {
    if w == [] {
      assert w + y == y;
    } else {
      var wy := w + y;
      assert wy[0] == w[0] && wy[1..] == w[1..] + y;
      DropWhitespaceOfRun(w[1..], y);
    }
  }

  /** A maximal run of white space becomes a single `-`. */
  lemma HyphenateOfRun(w: string, y: string)
    requires |w| >= 1 && forall i :: 0 <= i < |w| ==> IsWhitespace(w[i])
    requires y == [] || !IsWhitespace(y[0])
    ensures HyphenateWhitespaceRuns(w + y) == ['-'] + HyphenateWhitespaceRuns(y)
  {
    var wy := w + y;
    assert wy[0] == w[0] && wy[1..] == w[1..] + y;
    DropWhitespaceOfRun(w[1..], y);
  }

  /** Any other character is kept in its place. */
  lemma HyphenateOfOther(x: char, y: string)
    requires !IsWhitespace(x)
    ensures HyphenateWhitespaceRuns([x] + y) == [x] + HyphenateWhitespaceRuns(y)
  {
    assert ([x] + y)[0] == x && ([x] + y)[1..] == y;
  }

  lemma {:induction false} AlnumsOfKeepLower(s: string)
    requires NoAsciiUpper(s)
    ensures Alnums(KeepLowerAlnumSpace(s)) == Alnums(s)
  {
    if s != [] {
      NoCapitalOfSlice(s, 1, |s|);
      assert s[1..|s|] == s[1..];
      AlnumsOfKeepLower(s[1..]);
    }
  }

  lemma {:induction false} AlnumsOfDropWhitespace(s: string)
    ensures Alnums(DropWhitespace(s)) == Alnums(s)
  {
    if s != [] && IsWhitespace(s[0]) {
      AlnumsOfDropWhitespace(s[1..]);
      WhitespaceIsNotAlnum(s[0]);
    }
  }

  lemma AlnumsOfCons(c: char, t: string)
    ensures Alnums([c] + t) == (if IsAsciiAlnum(c) then [c] else []) + Alnums(t)
  {
    assert ([c] + t)[0] == c && ([c] + t)[1..] == t;
  }

  lemma {:induction false} AlnumsOfHyphenate(s: string)
    ensures Alnums(HyphenateWhitespaceRuns(s)) == Alnums(s)
    decreases |s|
  {
    if s != [] {
      var h := HyphenateWhitespaceRuns(s);
      if IsWhitespace(s[0]) {
        var rest := DropWhitespace(s[1..]);
        var tail := HyphenateWhitespaceRuns(rest);
        assert h == ['-'] + tail;
        AlnumsOfCons('-', tail);
        AlnumsOfHyphenate(rest);
        AlnumsOfDropWhitespace(s[1..]);
        WhitespaceIsNotAlnum(s[0]);
      } else {
        var tail := HyphenateWhitespaceRuns(s[1..]);
        assert h == [s[0]] + tail;
        AlnumsOfCons(s[0], tail);
        AlnumsOfHyphenate(s[1..]);
      }
    }
  }

  /** The contract slug keeps exactly the letters and digits of the folded
      text, in order. */
  lemma ContractSlugKeepsLettersAndDigits(text: string)
    ensures Alnums(ContractSlug(text)) == Alnums(Fold(text))
  {
    var f := Fold(text);
    assert NoAsciiUpper(f);
    TrimKeepsNoCapital(f);
    AlnumsOfTrim(f);
    var t := Trim(f);
    AlnumsOfKeepLower(t);
    AlnumsOfHyphenate(KeepLowerAlnumSpace(t));
  }

  /** `new Date().toJSON().slice(0, 10)`: the first ten characters of the
      current time in ISO 8601 form, which the caller supplies. */
  function IsoDate(isoNow: string): (d: string)
    ensures |d| <= 10 && |d| <= |isoNow| && d == isoNow[..|d|]
    ensures |d| == if |isoNow| < 10 then |isoNow| else 10
  {
    if |isoNow| <= 10 then isoNow else isoNow[..10]
  }

  function ContractPrefix(r: CustomerReservation): (prefix: string)
    ensures IsOwnershipTypeHaso(r) <==> prefix == "sopimus"
    ensures !IsOwnershipTypeHaso(r) <==> prefix == "kauppakirja"
  {
    if IsOwnershipTypeHaso(r) then "sopimus" else "kauppakirja"
  }

  /** `getContractFileName()`: the prefix, directly followed by the slug of
      the housing company and apartment number, a `-`, the date and
      `.pdf`. */
  function ContractFileName(r: CustomerReservation, isoNow: string): (name: string)
    ensures |name| >= 4 && name[|name| - 4..] == ".pdf"
  {
    ContractPrefix(r) + ContractSlug(r.projectHousingCompany + " " + r.apartmentNumber)
      + "-" + IsoDate(isoNow) + ".pdf"
  }

  /** Outside the prefix, `.pdf` and the date, the file name uses only slug
      characters. */
  lemma ContractFileNameMiddle(r: CustomerReservation, isoNow: string)
    ensures var middle := ContractSlug(r.projectHousingCompany + " " + r.apartmentNumber) + "-";
      ContractFileName(r, isoNow) == ContractPrefix(r) + middle + IsoDate(isoNow) + ".pdf"
      && AllSlugChars(middle)
  {
    var slug := ContractSlug(r.projectHousingCompany + " " + r.apartmentNumber);
    var middle := slug + "-";
    ContractSlugShape(r.projectHousingCompany + " " + r.apartmentNumber);
    assert ContractPrefix(r) + slug + "-" == ContractPrefix(r) + middle;
    forall i | 0 <= i < |middle|
      ensures IsSlugChar(middle[i])
    {
      if i < |slug| {
        assert middle[i] == slug[i];
      }
    }
  }

  // ---------------------------------------------------------------------
  // Local state

  /** The row's own state: whether the contract is being downloaded and
      whether the details dialog is open. */
  class RowState {
    var isLoadingContract: bool
    var isDialogOpen: bool

    constructor ()
      ensures !isLoadingContract && !isDialogOpen
    {
      isLoadingContract := false;
      isDialogOpen := false;
    }

    /** The info button. */
    method OpenDialog()
      modifies this
      ensures isDialogOpen && isLoadingContract == old(isLoadingContract)
    {
      isDialogOpen := true;
    }

    /** `closeDialog`. */
    method CloseDialog()
      modifies this
      ensures !isDialogOpen && isLoadingContract == old(isLoadingContract)
    {
      isDialogOpen := false;
    }

    /** `preContractDownloading`. */
    method PreContractDownloading()
      modifies this
      ensures isLoadingContract && isDialogOpen == old(isDialogOpen)
    {
      isLoadingContract := true;
    }

    /** `postContractDownloading`. */
    method PostContractDownloading()
      modifies this
      ensures !isLoadingContract && isDialogOpen == old(isDialogOpen)
    {
      isLoadingContract := false;
    }

    /** `onContractLoadError`: the download stops and an error toast is
        shown. */
    method OnContractLoadError() returns (toast: Toast)
      modifies this
      ensures !isLoadingContract && isDialogOpen == old(isDialogOpen)
      ensures toast == ErrorToast
    {
      isLoadingContract := false;
      toast := ErrorToast;
    }

    /** The contract button is disabled while a download is in progress. */
    function ContractButtonDisabled(): (disabled: bool)
      reads this
      ensures disabled <==> isLoadingContract
    {
      isLoadingContract
    }
  }
}
