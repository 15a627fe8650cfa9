# att-sales-ui decision rules, modelled in Dafny

This project models the decision and transformation rules of the City of
Helsinki apartment sales back office (att-sales-ui). That code sits inside
React components and small utilities:

- the reservation rows of an apartment and of a customer:
  - the queue position label;
  - which reservation is first in the queue;
  - which buttons are offered;
  - the latest cancellation;
  - the contract file name;
- the installment template form of a project:
  - 18 editable rows built from the saved templates, sorted by installment type;
  - the rows turned back into API records (euros to cents, percentages, flexible rows);
  - the sold reservations that may be sent to SAP;
- three small state machines, each a class whose fields are the component's flags:
  - the reservation edit modal and its form;
  - the customer comment dialog;
- the apartment state filter of the project page and its select;
- the project options, search and URL parameters of the sales report;
- the profile-field fallback of the customer panel;
- the utilities `sortList`, `slugify`, `getRightOfResidenceText` and
  `mapApartmentReservationCustomerData`.

One module per source file:

| file | module | source |
|---|---|---|
| `apartment_row.dfy` | `ApartmentRow` | `src/components/apartment/ApartmentRow.tsx` |
| `customer_reservation_row.dfy` | `CustomerReservationRow` | `src/components/reservations/CustomerReservationRow.tsx` |
| `project_installments.dfy` | `ProjectInstallments` | `src/components/installments/ProjectInstallments.tsx` |
| `installment_sums.dfy` | `InstallmentSums` | its `getFormattedSum` and the `toFixed(2)` sum text |
| `big_decimal.dfy` | `BigDecimal` | the part of big.js that `getFormattedSum` uses |
| `reservation_edit_form.dfy` | `ReservationEditForm` | `src/components/reservations/ReservationEditForm.tsx` |
| `reservation_edit_modal.dfy` | `ReservationEditModal` | `src/components/reservations/ReservationEditModal.tsx` |
| `customer_comments.dfy` | `CustomerComments` | `src/components/customers/CustomerComments.tsx` |
| `customer_info.dfy` | `CustomerInfo` | `src/components/customers/CustomerInfo.tsx` |
| `project_detail.dfy` | `ProjectDetail` | `src/pages/project/ProjectDetail.tsx` |
| `apartment_state_filter_select.dfy` | `ApartmentStateFilterSelect` | `src/components/apartment/ApartmentStateFilterSelect.tsx` |
| `sales_report.dfy` | `SalesReport` | `src/components/reports/SalesReport.tsx` |
| `sort_list.dfy`, `array_sort.dfy` | `SortList`, `ArraySort` | `src/utils/sortList.ts` and the in-place `Array.prototype.sort` |
| `slugify_string.dfy`, `slug_examples.dfy` | `SlugifyString`, `SlugExamples` | `src/utils/slugifyString.ts` |
| `right_of_residence_text.dfy` | `RightOfResidence` | `src/utils/getRightOfResidenceText.ts` |
| `customer_mapping.dfy` | `CustomerMapping` | `src/utils/mapApartmentReservationCustomerData.ts` |
| `enums.dfy`, `types.dfy` | `Enums`, `Types` | `src/enums.ts`, `src/types.ts` |
| `text.dfy`, `wrappers.dfy` | `Text`, `Wrappers` | JavaScript string operations; `Option` and the JavaScript `undefined`/`null`/value triple |

Conventions:

- `Nullable<T>` is `Undefined | Null | Present(v)`. Truthiness tests are
  written out: a number is truthy when it is present and not 0
  (`IsTruthyInt`), and a string when it is present and not empty.
- A template literal of a missing number prints `undefined` or `null`
  (`Text.TemplateInt`).
- Translation calls `t(key)` are kept as their keys.
- Three things the program takes from libraries or the platform are
  parameters:
  - moment's date check and reformatting (`isValidDate`, `reformat`,
    `toFinnishDate`, `parseFinnishDate`);
  - `localeCompare` collation: `collates`, a total preorder;
  - the clock (`isoNow`).
- A remote mutation is split in two. A first method sends the request and
  sets the loading flags. A second method takes `succeeded: bool` and applies
  the success or failure branch. A guard on an in-flight flag can then be
  stated.
- The in-place sorts (`sortNumeric`, `sortAlphanumeric`, the sorts in
  `selectOptions` and in the installment load) run an insertion sort on an
  `array` (`ArraySort.SortInPlace`). It is proved to leave the array sorted
  by the comparator and a permutation of what it was.

## Model

| member | source | states |
|---|---|---|
| `ApartmentRow.PositionLabel` | src/components/apartment/ApartmentRow.tsx:52-61 | canceled with a truthy lottery position: "00" and the position; canceled without one (0 included): "-"; otherwise the queue position as a template literal prints it, then "." |
| `ApartmentRow.PositionLabelReadBack` | src/components/apartment/ApartmentRow.tsx:52-61 | the label ends in "." exactly when the reservation is not canceled, and the queue position (or, after "00", the lottery position) parses back out of it |
| `ApartmentRow.HasoOrFamily` | src/components/apartment/ApartmentRow.tsx:101-108 | the right-of-residence number appears only in a project whose ownership type is "haso" and only when the number is present; the family icon appears only outside haso, for a reservation with children |
| `ApartmentRow.ProfileLine` | src/components/apartment/ApartmentRow.tsx:63-71 | "last, first " always; the non-breaking space and e-mail follow exactly on a lottery result with a non-empty e-mail |
| `ApartmentRow.ApplicantCell` | src/components/apartment/ApartmentRow.tsx:50-99 | nothing without a customer; the position only on lottery results; a second line exactly when there is a secondary profile; the offer status exactly on a lottery result with an offer; the bell exactly when not canceled, on a lottery result and with several winning apartments (lines 112-121) |
| `ApartmentRow.IsCanceled` | src/components/apartment/ApartmentRow.tsx:46-48 | the state is canceled; Actions and ExpandedAllButtonsOnlyInFirstPlace state what it switches off |
| `ApartmentRow.ShowsBell` | src/components/apartment/ApartmentRow.tsx:112-121 | the bell shows for a non-canceled lottery result with several winning apartments; ApplicantCell and ApplicationsShowNoLotteryDetails state where it appears |
| `ApartmentRow.Actions` | src/components/apartment/ApartmentRow.tsx:144-214 | a canceled reservation gets no button, the reason key "ENUMS.ReservationCancelReasons." plus its reason's name exactly when it has a reason, and its cancellation timestamp exactly when that is non-empty; any other gets Cancel first, then Edit and Offer exactly when all buttons are shown; Edit opens the modal with the project uuid and no apartment id; Offer is new exactly when there is no offer yet |
| `ApartmentRow.FirstInQueueIndex` | src/components/apartment/ApartmentRow.tsx:218 | the first position in list order whose queue position is exactly 1, or none when no reservation has queue position 1 |
| `ApartmentRow.CollapsedResultRow` | src/components/apartment/ApartmentRow.tsx:216-232 | the add-applicant button exactly when nobody is first in the queue or the first in the queue is canceled; otherwise that reservation with all its buttons |
| `ApartmentRow.ExpandedResultRows` | src/components/apartment/ApartmentRow.tsx:251-275 | one row per reservation in the order received, with all buttons exactly for queue position 1, and then the add-applicant row; an empty list gives only the add-applicant row |
| `ApartmentRow.CollapsedIsExpandedFirst` | src/components/apartment/ApartmentRow.tsx:223-266 | the collapsed row shows the first in the queue exactly as the expanded list shows that reservation |
| `ApartmentRow.ExpandedAllButtonsOnlyInFirstPlace` | src/components/apartment/ApartmentRow.tsx:266 | an expanded row carries Edit and Offer exactly when its reservation is not canceled and has queue position 1 |
| `ApartmentRow.Applications` | src/components/apartment/ApartmentRow.tsx:281-323 | before the lottery the toggle is disabled and reads "no applicants" exactly when the list is empty; otherwise it counts the reservations; it is expanded exactly when non-empty and open; each reservation gets one row |
| `ApartmentRow.ApplicationsShowNoLotteryDetails` | src/components/apartment/ApartmentRow.tsx:311 | the list before the lottery never shows a position, an offer or a bell |
| `ApartmentRow.RowState.constructor` | src/components/apartment/ApartmentRow.tsx:32-39 | each open flag starts from its stored value, or closed |
| `ApartmentRow.RowState.ToggleApplicationRow` | src/components/apartment/ApartmentRow.tsx:43 | flips the application flag and leaves the result flag alone |
| `ApartmentRow.RowState.ToggleResultRow` | src/components/apartment/ApartmentRow.tsx:44 | flips the result flag and leaves the application flag alone |
| `ApartmentRow.RowState.View` | src/components/apartment/ApartmentRow.tsx:325-336 | lottery results exactly when the lottery is completed, the applications otherwise; the apartment state shows exactly on an open lottery result |
| `CustomerReservationRow.Buttons` | src/components/reservations/CustomerReservationRow.tsx:42-46 | a canceled reservation gets no offer, contract or cancel button; any other gets Cancel; Offer exactly when the lottery is completed and the queue position is 1; Contract exactly when, in addition, the state is not review (buttons at lines 339-394) |
| `CustomerReservationRow.IsInReview` | src/components/reservations/CustomerReservationRow.tsx:42-46 | the state is review; ContractOnlyWhereOffer uses it |
| `CustomerReservationRow.IsWinningReservation` | src/components/reservations/CustomerReservationRow.tsx:42-46 | the lottery is completed and the queue position is 1; Buttons shows Offer exactly then |
| `CustomerReservationRow.CanCreateOffer` | src/components/reservations/CustomerReservationRow.tsx:42-46 | a winning reservation; Buttons states the Offer button by it |
| `CustomerReservationRow.CanCreateContract` | src/components/reservations/CustomerReservationRow.tsx:42-46 | a winning reservation not in review; ContractOnlyWhereOffer states the contract-offer relation |
| `CustomerReservationRow.ContractOnlyWhereOffer` | src/components/reservations/CustomerReservationRow.tsx:44-46 | a contract button implies an offer button, and an offer without a contract happens only in review |
| `CustomerReservationRow.ContractButtonKey` | src/components/reservations/CustomerReservationRow.tsx:364 | the "create contract" text exactly when the lower-cased ownership type is "haso" (line 41), "create deed of sale" otherwise |
| `CustomerReservationRow.LatestCancelEventIsLastCanceled` | src/components/reservations/CustomerReservationRow.tsx:113-118 | `reverse().find(canceled)` returns the last canceled event of the history, or none when there is no canceled event |
| `CustomerReservationRow.FindCanceled` | src/components/reservations/CustomerReservationRow.tsx:113-118 | a found event is a canceled event of the list, and nothing is found exactly when none is canceled; FindCanceledIsFirst states it is the first |
| `CustomerReservationRow.LatestCancelEvent` | src/components/reservations/CustomerReservationRow.tsx:113-118 | `reverse().find`; LatestCancelEventIsLastCanceled states it is the last canceled event |
| `CustomerReservationRow.LatestCancelEventOfMissingHistory` | src/components/reservations/CustomerReservationRow.tsx:115 | a missing history has no latest cancel event |
| `CustomerReservationRow.CancelDetailsOf` | src/components/reservations/CustomerReservationRow.tsx:120-141 | the plain "canceled" text exactly when there is no canceled event; otherwise the latest one, with the reason key "ENUMS.ReservationCancelReasons." plus that event's reason name exactly when it has a reason, that event's timestamp exactly when it is non-empty, and its comment |
| `CustomerReservationRow.QueuePositionText` | src/components/reservations/CustomerReservationRow.tsx:99-104 | "lottery uncompleted" before the lottery, the queue position as a template literal and the "position" text after it |
| `CustomerReservationRow.DetailQueuePosition` | src/components/reservations/CustomerReservationRow.tsx:165-167 | "N." exactly when the lottery is completed and the queue position is truthy, "no position number" otherwise |
| `CustomerReservationRow.DetailLotteryPosition` | src/components/reservations/CustomerReservationRow.tsx:181 | "N." exactly when the lottery position is truthy |
| `CustomerReservationRow.RowPriority` | src/components/reservations/CustomerReservationRow.tsx:106-111 | any priority that is not null or undefined, 0 included; "-" otherwise |
| `CustomerReservationRow.DetailPriority` | src/components/reservations/CustomerReservationRow.tsx:189 | the priority when truthy, "-" otherwise |
| `CustomerReservationRow.PriorityTextsDifferOnlyOnZero` | src/components/reservations/CustomerReservationRow.tsx:106-111 | the row and the detail table print different priority texts exactly for priority 0 (line 189) |
| `CustomerReservationRow.StateText` | src/components/reservations/CustomerReservationRow.tsx:143-152 | the state's name, with the "waiting for lottery" suffix exactly when the lottery is not completed and the state is submitted |
| `CustomerReservationRow.Summary` | src/components/reservations/CustomerReservationRow.tsx:300-315 | a canceled reservation shows its cancel details instead of queue information; any other shows queue position and priority, and in a Haso project the right-of-residence text and the late mark |
| `CustomerReservationRow.KeepLowerAlnumSpace` | src/components/reservations/CustomerReservationRow.tsx:69 | only a-z, 0-9 and space remain |
| `CustomerReservationRow.KeepLowerAlnumSpaceAppend` | src/components/reservations/CustomerReservationRow.tsx:69 | the filter of a concatenation is the concatenation of the filtered parts, so the kept characters stay in order |
| `CustomerReservationRow.KeepLowerAlnumSpaceOfChar` | src/components/reservations/CustomerReservationRow.tsx:69 | a single character is kept exactly when it is in [a-z0-9 ]; with the append lemma this fixes the result on every input |
| `CustomerReservationRow.AlnumsOfKeepLower` | src/components/reservations/CustomerReservationRow.tsx:69 | on lower-cased text the filter keeps every ASCII letter and digit, in order |
| `CustomerReservationRow.HyphenateWhitespaceRuns` | src/components/reservations/CustomerReservationRow.tsx:70 | empty exactly for empty input; every character is "-" or a non-white-space character of the input, and every "-" is followed by a non-white-space character of the input |
| `CustomerReservationRow.HyphenateOfRun` | src/components/reservations/CustomerReservationRow.tsx:70 | a maximal run of white space becomes exactly one "-" in front of the rest |
| `CustomerReservationRow.HyphenateOfOther` | src/components/reservations/CustomerReservationRow.tsx:70 | a character that is not white space stays in its place; with `HyphenateOfRun` this fixes the result on every input |
| `CustomerReservationRow.AlnumsOfHyphenate` | src/components/reservations/CustomerReservationRow.tsx:70 | the ASCII letters and digits survive, in order |
| `CustomerReservationRow.ContractSlugKeepsLettersAndDigits` | src/components/reservations/CustomerReservationRow.tsx:63-71 | the contract slug keeps exactly the ASCII letters and digits of the folded text, in order |
| `CustomerReservationRow.ContractSlugShape` | src/components/reservations/CustomerReservationRow.tsx:63-71 | the contract slug uses only a-z, 0-9 and "-" and never has two "-" in a row |
| `CustomerReservationRow.ContractSlug` | src/components/reservations/CustomerReservationRow.tsx:63-71 | the inline slugify; ContractSlugShape and ContractSlugKeepsLettersAndDigits state its characters and content |
| `CustomerReservationRow.IsoDate` | src/components/reservations/CustomerReservationRow.tsx:81 | the first ten characters of the ISO time, or all of it when it is shorter |
| `CustomerReservationRow.ContractPrefix` | src/components/reservations/CustomerReservationRow.tsx:73-77 | "sopimus" exactly for Haso, "kauppakirja" otherwise |
| `CustomerReservationRow.ContractFileName` | src/components/reservations/CustomerReservationRow.tsx:79-81 | the contract file name ends in ".pdf" |
| `CustomerReservationRow.ContractFileNameMiddle` | src/components/reservations/CustomerReservationRow.tsx:81 | the name is the prefix, the slug of company and apartment number, "-", the date and ".pdf"; the part between prefix and date uses only a-z, 0-9 and "-", so no underscore separates the parts as the example comment at line 79 shows |
| `SlugExamples.ContractSlugCanStartWithHyphen` | src/components/reservations/CustomerReservationRow.tsx:63-71 | the contract slug trims before it drops punctuation, so "! a" gives "-a", where `slugify` gives "a" |
| `CustomerReservationRow.RowState.constructor` | src/components/reservations/CustomerReservationRow.tsx:36-37 | no download in progress and the dialog closed |
| `CustomerReservationRow.RowState.OpenDialog` | src/components/reservations/CustomerReservationRow.tsx:331 | opens the details dialog, download flag unchanged |
| `CustomerReservationRow.RowState.CloseDialog` | src/components/reservations/CustomerReservationRow.tsx:48 | closes the dialog, download flag unchanged |
| `CustomerReservationRow.RowState.PreContractDownloading` | src/components/reservations/CustomerReservationRow.tsx:50 | the download starts, dialog unchanged |
| `CustomerReservationRow.RowState.PostContractDownloading` | src/components/reservations/CustomerReservationRow.tsx:51 | the download ends, dialog unchanged |
| `CustomerReservationRow.RowState.OnContractLoadError` | src/components/reservations/CustomerReservationRow.tsx:53-56 | the download ends and an error toast is shown |
| `CustomerReservationRow.RowState.ContractButtonDisabled` | src/components/reservations/CustomerReservationRow.tsx:363 | the contract button is disabled exactly while a download is in progress |
| `ProjectInstallments.FillRow` | src/components/installments/ProjectInstallments.tsx:90-108 | a row filled from a saved installment counts as filled, and its type sits at its own position in the installment type order |
| `ProjectInstallments.LoadedRowsStep` | src/components/installments/ProjectInstallments.tsx:84-90 | the i-th saved installment overwrites exactly the i-th of the 18 rows |
| `ProjectInstallments.LoadedRows` | src/components/installments/ProjectInstallments.tsx:84-90 | the 18 rows after loading; LoadedRowsStep and NonEmptyLoadedRows state which row each installment fills |
| `ProjectInstallments.RowOrderIsTotalPreorder` | src/components/installments/ProjectInstallments.tsx:111-121 | the row order (type rank, empty type last) is a total preorder, so the sort is well defined |
| `ProjectInstallments.SourceCompareAgreesWithRank` | src/components/installments/ProjectInstallments.tsx:114-121 | the source comparator agrees with the rank order whenever one of the two rows has a type; on two rows without a type it answers "after" both ways |
| `ProjectInstallments.SourceCompare` | src/components/installments/ProjectInstallments.tsx:114-121 | the comparator as written; SourceCompareAgreesWithRank ties it to the rank order |
| `ProjectInstallments.SortedRowsOrder` | src/components/installments/ProjectInstallments.tsx:111-121 | in sorted rows an empty type is followed only by empty types, and filled rows follow the declaration order of the installment types |
| `ProjectInstallments.NonEmptyRows` | src/components/installments/ProjectInstallments.tsx:134-136 | a row is kept exactly when its type, account number or sum is non-empty; never more rows than given |
| `ProjectInstallments.NonEmptyRowsCount` | src/components/installments/ProjectInstallments.tsx:136 | the filter keeps every copy of a filled row and no copy of an empty row |
| `ProjectInstallments.NonEmptyRowsOfPermutation` | src/components/installments/ProjectInstallments.tsx:136 | filtering reordered rows keeps the same rows |
| `ProjectInstallments.NonEmptyLoadedRows` | src/components/installments/ProjectInstallments.tsx:84-109 | the filled rows after loading are exactly the rows of the saved installments, in their order |
| `ProjectInstallments.SentRowsAreSaved` | src/components/installments/ProjectInstallments.tsx:111-136 | after the sort the rows that would be sent are a permutation of the rows of the saved installments |
| `ProjectInstallments.DueDateValue` | src/components/installments/ProjectInstallments.tsx:163-167 | the formatted date whenever `parseFinnishDate` gives a non-empty one; otherwise null for an empty text and the text itself for any other |
| `ProjectInstallments.RowPayload` | src/components/installments/ProjectInstallments.tsx:152-175 | type and account copied; the due date is `DueDateValue` of the field; a flexible row sends only its specifier; a percentage-unit row sends `FormattedSum` of the sum as a percentage, and the specifier; any other row sends `FormattedSum` of the sum as an amount in cents |
| `ProjectInstallments.Payload` | src/components/installments/ProjectInstallments.tsx:152-175 | one API record per non-empty row, in order |
| `ProjectInstallments.SavedInstallmentRoundTrip` | src/components/installments/ProjectInstallments.tsx:90-175 | a saved installment loaded into a row and turned back into a record keeps its type, account and due date, its amount in cents, its flexible specifier, or its percentage as big.js prints it |
| `ProjectInstallments.Upsert` | src/components/installments/ProjectInstallments.tsx:183-188 | the apartment's list is replaced or appended under its uuid, other apartments are untouched, and insertion order of keys is kept |
| `ProjectInstallments.IdsOf` | src/components/installments/ProjectInstallments.tsx:210-213 | the decimal texts of exactly the truthy reservation ids; with IdsOfAppend and IdsOfOne, in the order and with the repetitions of the reservations |
| `ProjectInstallments.IdsOfAppend` | src/components/installments/ProjectInstallments.tsx:210-213 | the ids of a concatenation are the ids of each part, in order |
| `ProjectInstallments.IdsOfOne` | src/components/installments/ProjectInstallments.tsx:211-213 | one reservation gives its id as text exactly when the id is truthy |
| `ProjectInstallments.MapOf` | src/components/installments/ProjectInstallments.tsx:226-231 | `reservationMap`; MapOfLastWins states that an id maps to the last reservation with it |
| `ProjectInstallments.MapOfLastWins` | src/components/installments/ProjectInstallments.tsx:226-231 | an id is in the map exactly when some reservation has it, and maps to the last reservation with that id |
| `ProjectInstallments.BuildReservationMap` | src/components/installments/ProjectInstallments.tsx:226-231 | the nested loop builds the map of all loaded reservations by id, the last one winning |
| `ProjectInstallments.Eligible` | src/components/installments/ProjectInstallments.tsx:233-239 | an id is kept exactly when it is a number, has loaded installments and its reservation is sold; with EligibleAppend and EligibleOfOne, in the order and with the repetitions of the ids |
| `ProjectInstallments.EligibleAppend` | src/components/installments/ProjectInstallments.tsx:233-239 | filtering a concatenation filters each part, so the SAP candidates keep the order and repetitions of the ids |
| `ProjectInstallments.EligibleOfOne` | src/components/installments/ProjectInstallments.tsx:233-239 | one id is kept exactly when it is a SAP candidate |
| `ProjectInstallments.SapCandidateIff` | src/components/installments/ProjectInstallments.tsx:226-239 | an id is a SAP candidate exactly when at least one installment is loaded for it and the last loaded reservation with that id is sold |
| `ProjectInstallments.WithField` | src/components/installments/ProjectInstallments.tsx:274-284 | the edited field takes the new value and every other field keeps its value |
| `ProjectInstallments.InstallmentsForm.constructor` | src/components/installments/ProjectInstallments.tsx:63-68 | no rows, no loaded data, no ids and the confirm dialog closed |
| `ProjectInstallments.InstallmentsForm.Load` | src/components/installments/ProjectInstallments.tsx:71-127 | with at most 18 saved installments: 18 rows, sorted by the row order, a permutation of the loaded rows; nothing else changes |
| `ProjectInstallments.InstallmentsForm.SetField` | src/components/installments/ProjectInstallments.tsx:274-284 | one field of one row changes |
| `ProjectInstallments.InstallmentsForm.HandleReservationsLoaded` | src/components/installments/ProjectInstallments.tsx:183-188 | the apartment's reservations are stored under its uuid |
| `ProjectInstallments.InstallmentsForm.HandleInstallmentsLoaded` | src/components/installments/ProjectInstallments.tsx:192-194 | the reservation's installment count is stored under its id |
| `ProjectInstallments.InstallmentsForm.UpdateReservationIds` | src/components/installments/ProjectInstallments.tsx:204-218 | once the lottery is completed and some apartment has loaded, the ids become the truthy ids of all loaded reservations; before that nothing changes |
| `ProjectInstallments.InstallmentsForm.AllReservationsLoaded` | src/components/installments/ProjectInstallments.tsx:200-202 | the lottery is completed and some apartment has loaded; it guards UpdateReservationIds |
| `ProjectInstallments.InstallmentsForm.UpdateFilteredReservations` | src/components/installments/ProjectInstallments.tsx:220-251 | with loaded reservations and some ids, the candidates become the eligible ids; otherwise nothing changes |
| `ProjectInstallments.InstallmentsForm.SelectedTypes` | src/components/installments/ProjectInstallments.tsx:533-535 | PAYMENT_6 exactly unless row 5 has a blank due date, PAYMENT_7 exactly unless row 6 has one; the rows' types play no part |
| `ProjectInstallments.InstallmentsForm.SapButtonSendsSomeType` | src/components/installments/ProjectInstallments.tsx:512-535 | when the SAP button shows (line 605), at least one payment type is sent |
| `ProjectInstallments.IsCompleteRow` | src/components/installments/ProjectInstallments.tsx:515-521 | due date, account, sum and type all non-blank; SapButtonSendsSomeType relies on it |
| `ProjectInstallments.InstallmentsForm.IsEra6Or7Filled` | src/components/installments/ProjectInstallments.tsx:512-525 | row 5 or 6 complete and some reservation id loaded; SapButtonSendsSomeType states what it implies for the types sent |
| `ProjectInstallments.InstallmentsForm.ShowsSapButton` | src/components/installments/ProjectInstallments.tsx:605 | the SAP button shows when `IsEra6Or7Filled` holds and some candidate is left; SapButtonSendsSomeType then sends at least one type |
| `ProjectInstallments.InstallmentsForm.OpenConfirmDialog` | src/components/installments/ProjectInstallments.tsx:611 | opens the confirm dialog and nothing else |
| `ProjectInstallments.InstallmentsForm.CloseConfirmDialog` | src/components/installments/ProjectInstallments.tsx:637 | closes the confirm dialog and nothing else |
| `ProjectInstallments.InstallmentsForm.ConfirmSend` | src/components/installments/ProjectInstallments.tsx:529-543 | the dialog closes; one request per candidate, each with the selected types and the numeric id; a success toast exactly when all succeed |
| `InstallmentSums.CentsText` | src/components/installments/ProjectInstallments.tsx:103-106 | the euro text of a number of cents has two decimals after a ".", and a "-" exactly when negative |
| `InstallmentSums.FormattedSum` | src/components/installments/ProjectInstallments.tsx:138-149 | unparsable text comes back unchanged, commas included; a percentage is always text; a parsable euro sum becomes cents |
| `InstallmentSums.CommaIsDecimalPoint` | src/components/installments/ProjectInstallments.tsx:139 | a comma and a dot give the same result |
| `InstallmentSums.EuroRoundTrip` | src/components/installments/ProjectInstallments.tsx:103-145 | the euro text the form shows for n cents is sent back as n cents |
| `InstallmentSums.EuroWithDigits` | src/components/installments/ProjectInstallments.tsx:145 | digits typed after the cents are rounded away by big.js `round` |
| `InstallmentSums.EuroRoundsHalfAwayFromZero` | src/components/installments/ProjectInstallments.tsx:145 | a third decimal of 5 or more rounds the cents away from zero, below 5 toward it |
| `InstallmentSums.PercentageIdempotent` | src/components/installments/ProjectInstallments.tsx:142-143 | formatting a formatted percentage changes nothing |
| `BigDecimal.Parse` | src/components/installments/ProjectInstallments.tsx:141 | a parsed number is normalised: no leading or trailing zero digits |
| `BigDecimal.ToString` | src/components/installments/ProjectInstallments.tsx:143 | the digits of the number, possibly preceded by a "-" (its partner is `BigDecimal.ParseToString`) |
| `BigDecimal.ParseToString` | src/components/installments/ProjectInstallments.tsx:141-143 | parsing the printed text of a number gives the number back |
| `Enums.InstallmentTypeIndex` | src/components/installments/ProjectInstallments.tsx:113-118 | `indexOf` in the installment type order: the first position with that value, or -1 |
| `Enums.InstallmentTypeIndexOfMember` | src/enums.ts:24-43 | every installment type has its own position among the 18 |
| `ReservationEditForm.OptionOf` | src/components/reservations/ReservationEditForm.tsx:60-68 | an option's value is its state's value |
| `ReservationEditForm.EditableStatesMembers` | src/components/reservations/ReservationEditForm.tsx:55-58 | a state is offered exactly when it is neither canceled nor submitted |
| `ReservationEditForm.EditableStates` | src/components/reservations/ReservationEditForm.tsx:55-58 | the states other than canceled and submitted; EditableStatesMembers and EditableStatesInOrder state which and in what order |
| `ReservationEditForm.CollectOptions` | src/components/reservations/ReservationEditForm.tsx:49-71 | the push loop builds one option per editable state, in order |
| `ReservationEditForm.StateOptions` | src/components/reservations/ReservationEditForm.tsx:48-72 | the options are those of the editable states in declaration order |
| `ReservationEditForm.EditableStatesInOrder` | src/components/reservations/ReservationEditForm.tsx:51-58 | exactly the 8 remaining states of `src/enums.ts:55-66`, in declaration order |
| `ReservationEditForm.DisabledIffOfferState` | src/components/reservations/ReservationEditForm.tsx:64 | an option is disabled exactly for offered, offer_accepted and offer_expired |
| `ReservationEditForm.GetStateOption` | src/components/reservations/ReservationEditForm.tsx:74-77 | undefined exactly for "", otherwise the options with exactly that value |
| `ReservationEditForm.EditForm.Shown` | src/components/reservations/ReservationEditForm.tsx:74-77 | the option shown for the current state; SelectedOptionOfState states it is that state's own option |
| `ReservationEditForm.Filter` | src/components/reservations/ReservationEditForm.tsx:76 | keeps exactly the options with the value; with FilterAppend and FilterOfOne, in order and with repetitions |
| `ReservationEditForm.FilterAppend` | src/components/reservations/ReservationEditForm.tsx:76 | filtering a concatenation filters each part |
| `ReservationEditForm.FilterOfOne` | src/components/reservations/ReservationEditForm.tsx:76 | one option is kept exactly when it has the value |
| `ReservationEditForm.SelectedOptionOfState` | src/components/reservations/ReservationEditForm.tsx:74-77 | for a state the select shows only that state's option, and nothing exactly when the state is canceled or submitted |
| `ReservationEditForm.EditForm.constructor` | src/components/reservations/ReservationEditForm.tsx:25-34 | no state and no comment before the reset |
| `ReservationEditForm.EditForm.Reset` | src/components/reservations/ReservationEditForm.tsx:36-41 | the form takes the reservation's current state and an empty comment |
| `ReservationEditForm.EditForm.SelectState` | src/components/reservations/ReservationEditForm.tsx:95-97 | the clicked option's value becomes the state, comment unchanged |
| `ReservationEditForm.EditForm.SetComment` | src/components/reservations/ReservationEditForm.tsx:109 | the typed text becomes the comment, state unchanged |
| `ReservationEditForm.EditForm.Submit` | src/components/reservations/ReservationEditForm.tsx:21-24 | the data is passed on exactly when the state is present and non-empty; the comment may be missing or null |
| `ReservationEditForm.IsValid` | src/components/reservations/ReservationEditForm.tsx:21-24 | the yup schema: a present, non-empty state; EditForm.Submit and ResetThenSubmit state what it lets through |
| `ReservationEditForm.ResetThenSubmit` | src/components/reservations/ReservationEditForm.tsx:36-41 | a freshly reset form always passes validation |
| `ReservationEditModal.IdOrEmpty` | src/components/reservations/ReservationEditModal.tsx:46-47 | "" exactly for a missing, null or empty id; otherwise the id itself |
| `ReservationEditModal.RequestOf` | src/components/reservations/ReservationEditModal.tsx:51-56 | the request carries the form data, the reservation id, and the project and apartment ids or "" |
| `ReservationEditModal.EditFromApartmentRow` | src/components/reservations/ReservationEditModal.tsx:46-47 | opened from an apartment row's Edit button (ApartmentRow.tsx lines 183-186), the request names the project uuid and the apartment "" |
| `ReservationEditModal.RenderOf` | src/components/reservations/ReservationEditModal.tsx:27-37 | nothing while closed; an error and nothing while open without a reservation; otherwise the dialog with its form id (line 71) and a submit button disabled exactly while loading (line 98) |
| `ReservationEditModal.EditModal.constructor` | src/components/reservations/ReservationEditModal.tsx:20-23 | closed, empty and not loading |
| `ReservationEditModal.EditModal.Show` | src/components/apartment/ApartmentRow.tsx:183-186 | opening stores the content and opens the modal |
| `ReservationEditModal.EditModal.Close` | src/components/reservations/ReservationEditModal.tsx:39 | closes the modal, everything else unchanged |
| `ReservationEditModal.EditModal.Submit` | src/components/reservations/ReservationEditModal.tsx:41-56 | ignored while a mutation is in flight; otherwise loading starts and the request is sent |
| `ReservationEditModal.EditModal.Resolve` | src/components/reservations/ReservationEditModal.tsx:57-67 | loading ends either way; success: success toast and the modal renders nothing; failure: error toast and the same dialog with its button enabled |
| `CustomerComments.RequestFor` | src/components/customers/CustomerComments.tsx:30-34 | no request exactly for blank content; otherwise the trimmed content, which is non-empty and has nothing left to trim |
| `CustomerComments.CommentDialog.constructor` | src/components/customers/CustomerComments.tsx:14-16 | closed, empty draft, not submitting |
| `CustomerComments.CommentDialog.OpenDialog` | src/components/customers/CustomerComments.tsx:20-23 | clears the draft and opens |
| `CustomerComments.CommentDialog.CloseDialog` | src/components/customers/CustomerComments.tsx:25-28 | closes and clears the draft |
| `CustomerComments.CommentDialog.SetDraft` | src/components/customers/CustomerComments.tsx:92 | the typed text becomes the draft |
| `CustomerComments.CommentDialog.AddComment` | src/components/customers/CustomerComments.tsx:30-34 | blank content: no request and no change; otherwise submitting starts and the trimmed content is sent |
| `CustomerComments.CommentDialog.ResolveAdd` | src/components/customers/CustomerComments.tsx:35-40 | submitting ends either way; success closes and clears the draft; failure keeps the dialog and the draft |
| `CustomerComments.ButtonsDisabled` | src/components/customers/CustomerComments.tsx:99-102 | Submit is disabled exactly while submitting or with a blank draft, Cancel exactly while submitting; an enabled Submit always sends a request |
| `CustomerComments.CommentDialog.SubmitDisabled` | src/components/customers/CustomerComments.tsx:99 | the Submit button's `disabled`; ButtonsDisabled states it |
| `CustomerComments.CommentDialog.CancelDisabled` | src/components/customers/CustomerComments.tsx:102 | the Cancel button's `disabled`; ButtonsDisabled states it |
| `CustomerComments.Round` | src/components/customers/CustomerComments.tsx:20-41 | open, type, submit and resolve: a success closes with an empty draft, a failure or a blank draft leaves the dialog open with the typed draft |
| `CustomerInfo.Pick` | src/components/customers/CustomerInfo.tsx:13-15 | the primary value unless emptyish, then the fallback unless emptyish, then ""; the result is "" or not emptyish |
| `CustomerInfo.IsEmptyish` | src/components/customers/CustomerInfo.tsx:13 | missing, empty, blank or "-" after trimming; PickedFieldsAreNotEmptyish states that picked fields avoid it |
| `CustomerInfo.PickKeepsPicked` | src/components/customers/CustomerInfo.tsx:14-15 | a picked non-empty value is never replaced when picked again |
| `CustomerInfo.DisplayName` | src/components/customers/CustomerInfo.tsx:71-72 | "last, first" with both, the single part with one, "—" with none; never empty |
| `CustomerInfo.ProfileInfo` | src/components/customers/CustomerInfo.tsx:58-72 | nothing exactly for a missing secondary profile; names fall back to the application only for the primary profile; contact fields fall back for both |
| `CustomerInfo.NamesFallBackOnlyForPrimary` | src/components/customers/CustomerInfo.tsx:63-64 | an emptyish first name is replaced by the application's for the primary profile and shown as it is for the secondary one |
| `CustomerInfo.PickedFieldsAreNotEmptyish` | src/components/customers/CustomerInfo.tsx:65-69 | every contact field shown is "" or a real value |
| `CustomerInfo.Render` | src/components/customers/CustomerInfo.tsx:31-37 | an error notice exactly without a customer; otherwise the primary column and a co-applicant column exactly when there is a secondary profile (lines 189-194) |
| `ApartmentStateFilterSelect.SelectOptions` | src/components/apartment/ApartmentStateFilterSelect.tsx:22-47 | "all apartments" with value "" first, then one option per apartment state in declaration order, 10 in all |
| `ApartmentStateFilterSelect.Selected` | src/components/apartment/ApartmentStateFilterSelect.tsx:54 | exactly the options whose value equals the active filter; with SelectedAppend and SelectedOfOne, in order and with repetitions |
| `ApartmentStateFilterSelect.SelectedAppend` | src/components/apartment/ApartmentStateFilterSelect.tsx:54 | selecting from a concatenation selects from each part |
| `ApartmentStateFilterSelect.SelectedOfOne` | src/components/apartment/ApartmentStateFilterSelect.tsx:54 | one option is shown exactly when its value is the active filter |
| `ApartmentStateFilterSelect.ReportedValue` | src/components/apartment/ApartmentStateFilterSelect.tsx:18-20 | the clicked option's value is passed on, so the clicked option is then shown as selected |
| `ApartmentStateFilterSelect.SelectThenShow` | src/components/apartment/ApartmentStateFilterSelect.tsx:54-55 | after a click the select shows the clicked option and no other |
| `ApartmentStateFilterSelect.DistinctValues` | src/components/apartment/ApartmentStateFilterSelect.tsx:22-47 | no two options share a value |
| `ApartmentStateFilterSelect.DashShowsNothing` | src/components/apartment/ApartmentStateFilterSelect.tsx:54 | the default filter "-" shows no option as selected |
| `ProjectDetail.StorageKey` | src/pages/project/ProjectDetail.tsx:51-54 | the key names the route's project id, or the loaded project's id when the route has none |
| `ProjectDetail.FilterIn` | src/pages/project/ProjectDetail.tsx:51-54 | the stored filter, or "-" when nothing is stored |
| `ProjectDetail.FiltersArePerProject` | src/pages/project/ProjectDetail.tsx:51-54 | storing one project's filter leaves the others as they were; an untouched project reads "-" |
| `ProjectDetail.WithState` | src/pages/project/ProjectDetail.tsx:140 | exactly the apartments in that state |
| `ProjectDetail.WithStateAppend` | src/pages/project/ProjectDetail.tsx:140 | the filter of a concatenation is the concatenation of the filtered parts, so order and repetitions are kept |
| `ProjectDetail.WithStateOfOne` | src/pages/project/ProjectDetail.tsx:140 | one apartment is kept exactly when it is in the state |
| `ProjectDetail.FilteredApartmentsAsWritten` | src/pages/project/ProjectDetail.tsx:138-143 | as written: with any filter other than "-" only the apartments whose state equals it; otherwise all, unchanged |
| `ProjectDetail.HasActiveFiltersAsWritten` | src/pages/project/ProjectDetail.tsx:55 | as written, every filter but "-" is active; AllApartmentsOptionHidesEverything shows what this does to "" |
| `ProjectDetail.AllApartmentsOptionHidesEverything` | src/pages/project/ProjectDetail.tsx:138-143 | as written, the "all apartments" value "" counts as active (line 55) and lists no apartment at all |
| `ProjectDetail.AllApartmentsCounterexample` | src/pages/project/ProjectDetail.tsx:139-141 | one free apartment with "all apartments" picked lists nothing |
| `ProjectDetail.FilteredApartments` | src/pages/project/ProjectDetail.tsx:138-143 | corrected: with "-" or "" all apartments unchanged; otherwise exactly those whose state equals the filter |
| `ProjectDetail.HasActiveFilters` | src/pages/project/ProjectDetail.tsx:55 | corrected: neither "-" nor "" is active; SelectOptionsFilterAsLabelled states that each option then filters as labelled |
| `ProjectDetail.FilteredApartmentsAppend` | src/pages/project/ProjectDetail.tsx:138-143 | corrected: the listed apartments of a concatenation are those of each part, in order |
| `ProjectDetail.FilteredApartmentsOfOne` | src/pages/project/ProjectDetail.tsx:138-143 | corrected: one apartment is listed exactly when no filter is active or it is in the chosen state |
| `ProjectDetail.SelectOptionsFilterAsLabelled` | src/components/apartment/ApartmentStateFilterSelect.tsx:22-47 | corrected: "all apartments" lists all apartments and each state option lists the apartments in that state |
| `ProjectDetail.Render` | src/pages/project/ProjectDetail.tsx:122-213 | spinner, error, nothing, or the page; the state filter select exactly once the lottery is completed (line 183); the table and the installments tab get the same filtered list (lines 196, 208) |
| `ProjectDetail.ProjectDetailPage.constructor` | src/pages/project/ProjectDetail.tsx:50-54 | no stored filter and no lottery start loading |
| `ProjectDetail.ProjectDetailPage.SetFilter` | src/pages/project/ProjectDetail.tsx:118-120 | stores the value under the project's key only |
| `ProjectDetail.ProjectDetailPage.StartLottery` | src/pages/project/ProjectDetail.tsx:94-97 | not re-issued while a start is loading; otherwise the request for the project's uuid is sent |
| `ProjectDetail.ProjectDetailPage.ResolveLottery` | src/pages/project/ProjectDetail.tsx:98-107 | a success toast and a refetch on success, neither on failure; loading ends |
| `SalesReport.FindLabel` | src/components/reports/SalesReport.tsx:89 | `findIndex`: -1 exactly when no earlier option has the label |
| `SalesReport.PushedOptions` | src/components/reports/SalesReport.tsx:87-102 | one option per project, with the project's uuid as value and name "projectOption" |
| `SalesReport.DuplicateLabelRule` | src/components/reports/SalesReport.tsx:88-95 | " #id" is appended exactly when an earlier option already has exactly the base label |
| `SalesReport.BaseLabel` | src/components/reports/SalesReport.tsx:87 | `housing_company - street_address`; NextOption starts every label with it |
| `SalesReport.NextOption` | src/components/reports/SalesReport.tsx:87-100 | the uuid as value and name "projectOption"; the label is exactly the base label when no earlier option has it |
| `SalesReport.NextOptionStartsWithBase` | src/components/reports/SalesReport.tsx:87-94 | every label starts with the base label |
| `SalesReport.NextLabel` | src/components/reports/SalesReport.tsx:87-94 | the label the loop body computes is the label of `NextOption` |
| `SalesReport.PushOptions` | src/components/reports/SalesReport.tsx:86-101 | the push loop builds exactly `PushedOptions` of the projects |
| `SalesReport.LabelOrderIsTotalPreorder` | src/components/reports/SalesReport.tsx:104 | ordering by label under the collation is a total preorder |
| `SalesReport.SelectOptions` | src/components/reports/SalesReport.tsx:84-107 | the options are a permutation of the pushed options, sorted by label |
| `SalesReport.Search` | src/components/reports/SalesReport.tsx:136-139 | an option is kept exactly when its lower-cased label contains the lower-cased search |
| `SalesReport.SearchAppend` | src/components/reports/SalesReport.tsx:136-139 | searching a concatenation searches each part, so the found options keep their order and repetitions |
| `SalesReport.SearchOfOne` | src/components/reports/SalesReport.tsx:136-139 | one option is found exactly when its lower-cased label contains the lower-cased search |
| `SalesReport.SearchIgnoresCase` | src/components/reports/SalesReport.tsx:137 | lower-casing the search text first changes nothing |
| `SalesReport.EmptySearchKeepsAll` | src/components/reports/SalesReport.tsx:137 | an empty search keeps every option |
| `SalesReport.WithUuidsCount` | src/components/reports/SalesReport.tsx:74-76 | the filter keeps every copy of an option whose uuid is listed and none of the others |
| `SalesReport.WithUuids` | src/components/reports/SalesReport.tsx:74-76 | the options of the listed uuids; WithUuidsCount, WithUuidsAppend and WithUuidsOfOne fix copies and order |
| `SalesReport.WithUuidsAppend` | src/components/reports/SalesReport.tsx:74-76 | filtering a concatenation filters each part, in order |
| `SalesReport.WithUuidsOfOne` | src/components/reports/SalesReport.tsx:74-76 | one option is kept exactly when its uuid is listed |
| `SalesReport.SalesReportForm.constructor` | src/components/reports/SalesReport.tsx:29 | nothing selected |
| `SalesReport.SalesReportForm.SelectChange` | src/components/reports/SalesReport.tsx:132-134 | the selection becomes what the user picked |
| `SalesReport.SalesReportForm.GetValues` | src/components/reports/SalesReport.tsx:68-82 | a non-empty user selection wins; else the options of the remembered projects, sorted by label and stored; else [] |
| `SalesReport.DefaultSelection` | src/components/reports/SalesReport.tsx:73-77 | the options of the listed uuids, sorted by label |
| `SalesReport.DefaultOptions` | src/components/reports/SalesReport.tsx:73-76 | the options kept by the filter are, as a multiset, the pushed options whose project is among the remembered uuids, however `selectOptions` sorted them |
| `SalesReport.Uuids` | src/components/reports/SalesReport.tsx:73 | the projects' uuids, in order |
| `SalesReport.SelectedUuids` | src/components/reports/SalesReport.tsx:44 | the selected options' uuids, in selection order |
| `SalesReport.FormattedDate` | src/components/reports/SalesReport.tsx:33-38 | a valid date is reformatted, any other text passes through |
| `SalesReport.GetUrlParams` | src/components/reports/SalesReport.tsx:40-47 | both dates formatted; splitting `project_uuids` at "," gives back the selected uuids in order when no uuid holds a comma; no selection gives "" |
| `SalesReport.SalesReportFileName` | src/components/reports/SalesReport.tsx:109-115 | starts "myyntiraportti_" and ends ".xlsx" |
| `SalesReport.FileNameNamesDates` | src/components/reports/SalesReport.tsx:109-115 | when neither formatted date holds "_", splitting the name before ".xlsx" at "_" gives "myyntiraportti" and the two formatted dates |
| `SortList.NumericCompare` | src/utils/sortList.ts:17-28 | 0 exactly for equal keys; negative exactly when the first key is smaller ("ascending") or larger (any other direction) |
| `SortList.NumericCompareAntisymmetric` | src/utils/sortList.ts:21-28 | swapping the rows negates the comparison |
| `SortList.NumericOrderIsTotalPreorder` | src/utils/sortList.ts:17-28 | the comparator is a total preorder, so the sort is well defined |
| `SortList.NumericOrder` | src/utils/sortList.ts:17-28 | the order the numeric comparator induces; NumericOrderIsTotalPreorder states it is a total preorder |
| `SortList.SortNumeric` | src/utils/sortList.ts:16-30 | sorts the caller's array in place and returns it; numeric keys non-decreasing for "ascending", non-increasing otherwise; a permutation |
| `SortList.RemoveSpaces` | src/utils/sortList.ts:5-6 | no space remains and every other character keeps its count |
| `SortList.AlphanumericKey` | src/utils/sortList.ts:3-6 | a missing or null field is "", any other has its spaces removed |
| `SortList.AlphanumericOrderIsTotalPreorder` | src/utils/sortList.ts:2-12 | the collation of space-free keys, swapped for a non-ascending direction, is a total preorder |
| `SortList.AlphanumericOrder` | src/utils/sortList.ts:2-12 | the collation of space-free keys, swapped for non-ascending; AlphanumericOrderIsTotalPreorder states it is a total preorder |
| `SortList.SortAlphanumeric` | src/utils/sortList.ts:1-14 | sorts the caller's array in place and returns it, ordered by the collation of its keys (reversed when not ascending); a permutation |
| `ArraySort.SortInPlace` | src/utils/sortList.ts:2 | the array ends sorted by the comparator and is a permutation of what it was |
| `SlugifyString.Fold` | src/utils/slugifyString.ts:3-5 | after decomposition, mark removal and lower-casing no ASCII capital remains |
| `SlugifyString.KeepWordSpaceHyphen` | src/utils/slugifyString.ts:7 | only word characters, white space and "-" remain, all from the input |
| `SlugifyString.KeepWordSpaceHyphenAppend` | src/utils/slugifyString.ts:7 | the filter of a concatenation is the concatenation of the filtered parts |
| `SlugifyString.KeepWordSpaceHyphenOfChar` | src/utils/slugifyString.ts:7 | a single character is kept exactly when it is a word character, white space or "-"; with the append lemma this fixes the result on every input |
| `SlugifyString.CollapseSeparators` | src/utils/slugifyString.ts:8 | empty exactly for empty input; every character is "-" or a non-separator of the input, and a "-" is never followed by another separator |
| `SlugifyString.CollapseOfRun` | src/utils/slugifyString.ts:8 | a maximal run of white space, "_" and "-" becomes exactly one "-" in front of the rest |
| `SlugifyString.CollapseOfOther` | src/utils/slugifyString.ts:8 | a character that is not a separator stays in its place; with `CollapseOfRun` this fixes the result on every input |
| `SlugifyString.DropLeadingHyphens` | src/utils/slugifyString.ts:9 | the leading "-" are removed and nothing else |
| `SlugifyString.DropTrailingHyphens` | src/utils/slugifyString.ts:9 | the trailing "-" are removed and nothing else |
| `SlugifyString.Slugify` | src/utils/slugifyString.ts:1-10 | the slug never starts or ends with "-" |
| `SlugifyString.SlugifyIsSlug` | src/utils/slugifyString.ts:3-9 | the slug uses only a-z, 0-9 and "-", never two "-" in a row nor at either end |
| `SlugifyString.SlugIsFixedPoint` | src/utils/slugifyString.ts:1-10 | a slug is its own slug |
| `SlugifyString.SlugifyIdempotent` | src/utils/slugifyString.ts:1-10 | slugify(slugify(s)) == slugify(s) |
| `SlugifyString.SlugifyKeepsLettersAndDigits` | src/utils/slugifyString.ts:3-9 | the slug keeps exactly the ASCII letters and digits of the folded input, in order |
| `SlugifyString.SlugifyEmptyIffNoLetterOrDigit` | src/utils/slugifyString.ts:7-9 | the slug is empty exactly when the folded input has no ASCII letter or digit |
| `SlugifyString.AccentedLetterKeepsBase` | src/utils/slugifyString.ts:3-4 | an accented letter becomes its lower-case base letter |
| `RightOfResidence.RightOfResidenceText` | src/utils/getRightOfResidenceText.ts:9-15 | "-" for a missing, null or 0 number; otherwise the digits, followed by the translated old-batch marker in parentheses exactly when the number is from the old batch; never empty |
| `RightOfResidence.RightOfResidenceTextReadBack` | src/utils/getRightOfResidenceText.ts:12-15 | the number parses back from the text, which is never "-" |
| `RightOfResidence.RightOfResidenceTextExamples` | src/utils/getRightOfResidenceText.test.ts:5-33 | "12345 (vanha)", "12345" and "-" for the three cases of the unit tests |
| `CustomerMapping.Summary` | src/utils/mapApartmentReservationCustomerData.ts:6-10 | only the first name, last name and e-mail of a profile are copied |
| `CustomerMapping.MapCustomerData` | src/utils/mapApartmentReservationCustomerData.ts:3-22 | the id and the primary summary are copied; the secondary profile is undefined without one and its summary with one |
| `CustomerMapping.MapCustomerDataDependsOnlyOnCopiedFields` | src/utils/mapApartmentReservationCustomerData.ts:4-19 | customers that agree on the copied fields map to the same result, so no other field reaches it |
| `CustomerMapping.MapCustomerDataSecondaryNeverNull` | src/utils/mapApartmentReservationCustomerData.ts:11-19 | the result's secondary profile is never null |
| `Text.TemplateInt` | src/components/apartment/ApartmentRow.tsx:60 | a template literal prints a number's digits, "undefined" or "null" |
| `Text.TrimIdempotent` | src/components/customers/CustomerComments.tsx:34 | trimming twice is trimming once |
| `Text.SplitJoin` | src/components/reports/SalesReport.tsx:44 | splitting a joined list at its separator gives the list back when no part holds the separator |
| `Text.IntToStringRoundTrip` | src/utils/getRightOfResidenceText.ts:13 | the decimal text of a number parses back to it |

## Left out

- Markup, styling, icons, links, the breadcrumbs, the tabs and the
  applicant tab of the customer panel are not modelled: they render and
  decide nothing.
- Toasts are kept only as the value a method returns. Their titles and
  texts, `console.error` and the React query cache are not modelled.
- Translations are their keys. The old-batch marker's text is the parameter
  `t`.
- Remote requests are not modelled as I/O. A method returns the request it
  would send, and the outcome is the `succeeded` parameter. The `Promise.all`
  fan-out of the SAP send is one `allSucceeded` flag.
- moment's date validation and formatting are function parameters, and so
  is `localeCompare` with the Finnish locale. Only their totality (a total
  preorder) is assumed, and only where a sort needs it.
- `SortList.SortNumeric`: a field value is a number, modelled as a `real`.
  Missing (`undefined`), `null`, `NaN` and non-numeric field values are not
  modelled. With them `<` and `>` can both be false while the values are
  not equal, the comparator is not consistent, and the order depends on the
  engine.
- `Array.prototype.sort` is modelled by an insertion sort that is proved to
  sort and to permute. Sort stability is not modelled.
- `ProjectInstallments.SourceCompareAgreesWithRank`: the source comparator
  says "after" both ways for two rows without a type. The model sorts by the
  consistent rank order, which puts all such rows last, as the comment at
  line 111 says.
- `InstallmentSums.CentsText`: `(amount / 100).toFixed(2)` is floating
  point. The model prints the exact number of cents as euros with two
  decimals.
- `InstallmentSums.FormattedSum`: big.js `toNumber()` of the rounded cents
  is kept as an exact integer.
- `BigDecimal`: only the big.js parser and `toString` that
  `getFormattedSum` uses are modelled. Number inputs, the DP/RM settings and
  the exponent limits are not.
- `ProjectInstallments.InstallmentsForm.Load`: more than 18 saved
  installments make the source throw inside the effect. The model returns
  `false` and changes nothing.
- `ProjectInstallments.InstallmentsForm.HandleInstallmentsLoaded`: only the
  number of a reservation's installments is stored, since only
  `installmentsData[id].length > 0` is read.
- `ProjectInstallments.InstallmentsForm.ConfirmSend`: the SAP loading flag
  (`isSendingToSAP`) is not modelled.
- The installment form's `handleSubmit`, its error list, the unit,
  specifier and type option builders, and the bank account cells are not
  modelled. They pass data on to the API or render it.
- Object key order of `allReservations` is modelled as insertion order.
  JavaScript would list integer-like keys first, but apartment uuids are
  never integer-like.
- `Text.ParseInt` reads only optionally signed decimal digits. It stands for
  `Number(reservationId)` on texts that `String(id)` produced.
- `Text.Lower` and `Text.Nfd` cover ASCII and Latin-1 (with the Kelvin and
  Ångström signs). Other Unicode case mappings and decompositions are not
  modelled.
- `CustomerComments.CommentDialog.SetDraft`: the textarea's `maxLength` of
  1000 is not modelled.
- `ReservationEditForm.EditForm.SetComment`: the comment field's
  `maxLength` of 255 is not modelled.
- `ReservationEditModal.EditModal.Close`: the store slice behind
  `hideReservationEditModal` is not part of this model. Closing clears
  `isOpened` and keeps the content.
- `ReservationEditModal.EditModal.Submit` asks for an open dialog with a
  reservation. That is the only state in which the form exists to be
  submitted.
- `ProjectDetail.Render` passes the corrected `HasActiveFilters` on to the
  apartment table. The program passes the one written at line 55 (see
  Findings).
- Duplicate project labels in the sales report: a label with " #id"
  appended can itself collide with a later base label. The model states
  exactly the source's rule and claims no uniqueness.
- `CustomerInfo.ProfileInfo`: the co-applicant's contact fields fall back to
  the same application as the primary's. This is what the source does, and
  it is not corrected.
- The customer panel's other profile fields (national identification
  number, language, contact preferences) are shown as they are. They are
  not modelled.
- The apartment row's `ApartmentBaseDetails`, the add-applicant, cancel and
  offer modals, and the customer row's history table are not modelled:
  rendering only.
- The applicant mailing list download of the project page is not part of
  this model.

## Findings

| source | as written | input that shows it | evidently intended | confidence | as-written member | corrected member |
|---|---|---|---|---|---|---|
| src/pages/project/ProjectDetail.tsx:55 | `hasActiveFilters` is `filter !== '-'`. The "all apartments" option of the select stores `''` (src/components/apartment/ApartmentStateFilterSelect.tsx:24-34), so it counts as an active filter. `getFilteredProjects` then keeps only apartments whose state is `''`, which is none | a project with one apartment in state "free", and "all apartments" picked: the table and the installments tab list no apartment | the select's own comment says the empty value is there "to show all apartments": `''` should count as no filter, like `'-'` | not executed | `ProjectDetail.AllApartmentsCounterexample`, `ProjectDetail.AllApartmentsOptionHidesEverything` | `ProjectDetail.FilteredApartments`, `ProjectDetail.SelectOptionsFilterAsLabelled` |
