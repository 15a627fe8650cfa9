/** The sales report form (src/components/reports/SalesReport.tsx): the
    project options of the combobox, its search, the selection it starts
    from, the query parameters and the name of the downloaded file. Date
    validity and reformatting and the locale collation of labels are
    parameters. */
module SalesReport {

  import opened Wrappers
  import opened Text
  import opened Types
  import opened ArraySort

  /** `${housing_company} - ${street_address}`. */
  function BaseLabel(p: Project): string {
    p.housingCompany + " - " + p.streetAddress
  }

  /** `options.findIndex(x => x.label === label)`. */
  function FindLabel(options: seq<SelectOption>, text: string): (k: int)
    ensures k == -1 <==> forall j :: 0 <= j < |options| ==> options[j].labelText != text
    ensures k != -1 ==> 0 <= k < |options| && options[k].labelText == text
  {
    if options == [] then -1
    else if options[0].labelText == text then 0
    else
      var k := FindLabel(options[1..], text);
      if k == -1 then -1 else k + 1
  }

  /** The option of a project pushed after `earlier`: its base label, with
      " #<id>" appended when an earlier option already has that label. */
  function NextOption(earlier: seq<SelectOption>, p: Project): (o: SelectOption)
    ensures o.selectValue == p.uuid && o.name == "projectOption"
    ensures o.labelText == BaseLabel(p) <==> FindLabel(earlier, BaseLabel(p)) == -1
  {
    var base := BaseLabel(p);
    var text := if FindLabel(earlier, base) != -1 then base + " #" + IntToString(p.id) else base;
    SelectOption(text, "projectOption", p.uuid, false)
  }

  /** Every label starts with the project's base label. */
  lemma NextOptionStartsWithBase(earlier: seq<SelectOption>, p: Project)
    ensures var text := NextOption(earlier, p).labelText;
      |BaseLabel(p)| <= |text| && text[..|BaseLabel(p)|] == BaseLabel(p)
  {
  }

  /** The options in push order, one per project. */
  function PushedOptions(projects: seq<Project>): (options: seq<SelectOption>)
    ensures |options| == |projects|
    ensures forall i :: 0 <= i < |projects| ==>
      options[i].selectValue == projects[i].uuid && options[i].name == "projectOption"
    decreases |projects|
  {
    if projects == [] then []
    else
      var earlier := PushedOptions(projects[..|projects| - 1]);
      earlier + [NextOption(earlier, projects[|projects| - 1])]
  }

  /** The options pushed for a prefix of the projects are a prefix of the
      options. */
  lemma {:induction false} PushedOptionsPrefix(projects: seq<Project>, n: nat)
    requires n <= |projects|
    ensures PushedOptions(projects[..n]) == PushedOptions(projects)[..n]
    decreases |projects|
  {
    if n < |projects| {
      var shorter := projects[..|projects| - 1];
      assert shorter[..n] == projects[..n];
      PushedOptionsPrefix(shorter, n);
    } else {
      assert projects[..n] == projects;
    }
  }

  /** One more project pushes one more option. */
  lemma PushedOptionsStep(projects: seq<Project>, i: nat)
    requires i < |projects|
    ensures PushedOptions(projects[..i + 1])
      == PushedOptions(projects[..i]) + [NextOption(PushedOptions(projects[..i]), projects[i])]
  {
    assert projects[..i + 1][..i] == projects[..i];
  }

  /** The duplicate-label rule: a project's label is its base label with
      " #<id>" appended exactly when an earlier option carries the base
      label. */
  lemma DuplicateLabelRule(projects: seq<Project>, i: nat)
    requires i < |projects|
    ensures var options := PushedOptions(projects);
      var base := BaseLabel(projects[i]);
      ((exists j :: 0 <= j < i && options[j].labelText == base) ==>
         options[i].labelText == base + " #" + IntToString(projects[i].id))
      && ((forall j :: 0 <= j < i ==> options[j].labelText != base) ==> options[i].labelText == base)
  {
    var options := PushedOptions(projects);
    var earlier := PushedOptions(projects[..i]);
    var base := BaseLabel(projects[i]);
    assert options[i] == NextOption(earlier, projects[i]) by {
      PushedOptionsPrefix(projects, i + 1);
      PushedOptionsStep(projects, i);
      assert options[..i + 1][i] == options[i];
    }
    assert forall j :: 0 <= j < i ==> options[j] == earlier[j] by {
      PushedOptionsPrefix(projects, i);
    }
    assert |earlier| == i;
  }

  /** Options ordered by the collation of their labels;
      `collates(x, y)` stands for `x.localeCompare(y) <= 0`. */
  function LabelOrder(collates: (string, string) -> bool): (SelectOption, SelectOption) -> bool {
    (a: SelectOption, b: SelectOption) => collates(a.labelText, b.labelText)
  }

  lemma LabelOrderIsTotalPreorder(collates: (string, string) -> bool)
    requires TotalPreorder(collates)
    ensures TotalPreorder(LabelOrder(collates))
  {
    var le := LabelOrder(collates);
    forall x, y, z | le(x, y) && le(y, z)
      ensures le(x, z)
    {
      assert collates(x.labelText, y.labelText) && collates(y.labelText, z.labelText);
    }
    forall x, y
      ensures le(x, y) || le(y, x)
    {
      assert collates(x.labelText, y.labelText) || collates(y.labelText, x.labelText);
    }
  }

  /** The body of the `forEach` of `selectOptions`: the base label, with
      " #<id>" appended when an earlier option already has it. */
  method NextLabel(earlier: seq<SelectOption>, project: Project) returns (text: string)
    ensures SelectOption(text, "projectOption", project.uuid, false) == NextOption(earlier, project)
  {
    text := BaseLabel(project);
    var index := FindLabel(earlier, text);
    if index != -1 {
      text := text + " #" + IntToString(project.id);
    }
  }

  /** The `forEach` of `selectOptions`: one option pushed per project. */
  method PushOptions(projects: seq<Project>) returns (pushed: seq<SelectOption>)
    ensures pushed == PushedOptions(projects)
  {
    pushed := [];
    var i := 0;
    while i < |projects|
      invariant 0 <= i <= |projects|
      invariant pushed == PushedOptions(projects[..i])
    {
      var project := projects[i];
      var text := NextLabel(pushed, project);
      PushedOptionsStep(projects, i);
      pushed := pushed + [SelectOption(text, "projectOption", project.uuid, false)];
      i := i + 1;
    }
    assert projects[..i] == projects;
  }

  /** `selectOptions`: pushes one option per project, then sorts the
      options in place by label. */
  method SelectOptions(projects: seq<Project>, collates: (string, string) -> bool)
    returns (options: array<SelectOption>)
    requires TotalPreorder(collates)
    ensures fresh(options)
    ensures multiset(options[..]) == multiset(PushedOptions(projects))
    ensures SortedBy(options[..], LabelOrder(collates))
  {
    var pushed := PushOptions(projects);
    options := new SelectOption[|pushed|](k requires 0 <= k < |pushed| => pushed[k]);
    assert options[..] == pushed;
    LabelOrderIsTotalPreorder(collates);
    SortInPlace(options, LabelOrder(collates));
  }

  /** `handleSearch`: the options whose lower-cased label contains the
      lower-cased search text, in their order. */
  function Search(options: seq<SelectOption>, search: string): (found: seq<SelectOption>)
    ensures |found| <= |options|
    ensures forall o :: o in found <==> o in options && Contains(Lower(o.labelText), Lower(search))
  {
    if options == [] then []
    else
      (if Contains(Lower(options[0].labelText), Lower(search)) then [options[0]] else [])
      + Search(options[1..], search)
  }

  /** Searching a concatenation searches each part: the found options keep
      their order and their repetitions. */
  lemma {:induction false} SearchAppend(xs: seq<SelectOption>, ys: seq<SelectOption>, search: string)
    ensures Search(xs + ys, search) == Search(xs, search) + Search(ys, search)
  {
    if xs == [] {
      assert xs + ys == ys;
    } else {
      var head := if Contains(Lower(xs[0].labelText), Lower(search)) then [xs[0]] else [];
      var xys := xs + ys;
      assert xys[0] == xs[0] && xys[1..] == xs[1..] + ys;
      SearchAppend(xs[1..], ys, search);
      calc {
        Search(xys, search);
        head + Search(xs[1..] + ys, search);
        head + (Search(xs[1..], search) + Search(ys, search));
        (head + Search(xs[1..], search)) + Search(ys, search);
      }
    }
  }

  /** One option is found exactly when its lower-cased label contains the
      lower-cased search. */
  lemma SearchOfOne(o: SelectOption, search: string)
    ensures Search([o], search) == if Contains(Lower(o.labelText), Lower(search)) then [o] else []
  {
    assert [o][1..] == [];
  }

  /** The search ignores case, and an empty search keeps every option in
      its place. */
  lemma SearchIgnoresCase(options: seq<SelectOption>, search: string)
    ensures Search(options, Lower(search)) == Search(options, search)
  {
    LowerIdempotent(search);
  }

  lemma {:induction false} EmptySearchKeepsAll(options: seq<SelectOption>)
    ensures Search(options, "") == options
  {
    if options != [] {
      EmptySearchKeepsAll(options[1..]);
      assert Lower("") == "";
      assert Contains(Lower(options[0].labelText), "");
      assert options == [options[0]] + options[1..];
    }
  }

  /** The options whose project is among `uuids`, in their order. */
  function WithUuids(options: seq<SelectOption>, uuids: seq<string>): (kept: seq<SelectOption>)
    ensures |kept| <= |options|
  {
    if options == [] then []
    else (if options[0].selectValue in uuids then [options[0]] else []) + WithUuids(options[1..], uuids)
  }

  /** Filtering a concatenation filters each part: order and repetitions
      are kept. */
  lemma {:induction false} WithUuidsAppend(xs: seq<SelectOption>, ys: seq<SelectOption>, uuids: seq<string>)
    ensures WithUuids(xs + ys, uuids) == WithUuids(xs, uuids) + WithUuids(ys, uuids)
  {
    if xs == [] {
      assert xs + ys == ys;
    } else {
      var head := if xs[0].selectValue in uuids then [xs[0]] else [];
      var xys := xs + ys;
      assert xys[0] == xs[0] && xys[1..] == xs[1..] + ys;
      WithUuidsAppend(xs[1..], ys, uuids);
      calc {
        WithUuids(xys, uuids);
        head + WithUuids(xs[1..] + ys, uuids);
        head + (WithUuids(xs[1..], uuids) + WithUuids(ys, uuids));
        (head + WithUuids(xs[1..], uuids)) + WithUuids(ys, uuids);
      }
    }
  }

  /** One option is kept exactly when its uuid is listed. */
  lemma WithUuidsOfOne(o: SelectOption, uuids: seq<string>)
    ensures WithUuids([o], uuids) == if o.selectValue in uuids then [o] else []
  {
    assert [o][1..] == [];
  }


  /** Each option is kept as often as it occurs when its project is among
      `uuids`, and never otherwise. */
  lemma {:induction false} WithUuidsCount(options: seq<SelectOption>, uuids: seq<string>, o: SelectOption)
    ensures multiset(WithUuids(options, uuids))[o] == if o.selectValue in uuids then multiset(options)[o] else 0
  {
    if options != [] {
      WithUuidsCount(options[1..], uuids, o);
      assert options == [options[0]] + options[1..];
    }
  }

  /** The form's selection. */
  class SalesReportForm {
    var selectedProjects: seq<SelectOption>

    constructor ()
      ensures selectedProjects == []
    {
      selectedProjects := [];
    }

    /** `handleSelectChange`. */
    method SelectChange(selected: seq<SelectOption>)
      modifies this
      ensures selectedProjects == selected
    {
      selectedProjects := selected;
    }

    /** `getValues`: the user's own selection when there is one; otherwise
        the options of the projects the server remembers, sorted by label
        and stored as the selection; otherwise nothing. */
    method GetValues(projects: seq<Project>, remembered: Option<seq<Project>>, collates: (string, string) -> bool)
      returns (values: seq<SelectOption>)
      requires TotalPreorder(collates)
      modifies this
      ensures old(selectedProjects) != [] ==> values == old(selectedProjects) && unchanged(this)
      ensures old(selectedProjects) == [] && remembered.Some? && remembered.value != [] ==>
        (multiset(values) == multiset(WithUuids(PushedOptions(projects), Uuids(remembered.value)))
         && SortedBy(values, LabelOrder(collates))
         && selectedProjects == values)
      ensures old(selectedProjects) == [] && (remembered.None? || remembered.value == []) ==>
        values == [] && unchanged(this)
    {
      if |selectedProjects| > 0 {
        values := selectedProjects;
      } else if remembered.Some? && |remembered.value| > 0 {
        var defaults := DefaultSelection(projects, Uuids(remembered.value), collates);
        selectedProjects := defaults;
        values := defaults;
      } else {
        values := [];
      }
    }
  }

  /** The selection `getValues` falls back to: the options of the given
      projects, sorted in place by label. */
  method DefaultSelection(projects: seq<Project>, uuids: seq<string>, collates: (string, string) -> bool)
    returns (defaults: seq<SelectOption>)
    requires TotalPreorder(collates)
    ensures multiset(defaults) == multiset(WithUuids(PushedOptions(projects), uuids))
    ensures SortedBy(defaults, LabelOrder(collates))
  {
    var chosen := DefaultOptions(projects, uuids, collates);
    var sorted := new SelectOption[|chosen|](k requires 0 <= k < |chosen| => chosen[k]);
    assert sorted[..] == chosen;
    LabelOrderIsTotalPreorder(collates);
    SortInPlace(sorted, LabelOrder(collates));
    defaults := sorted[..];
  }

  /** `selectOptions().filter(...)`: the options of the projects among
      `uuids`, before they are sorted. */
  method DefaultOptions(projects: seq<Project>, uuids: seq<string>, collates: (string, string) -> bool)
    returns (chosen: seq<SelectOption>)
    requires TotalPreorder(collates)
    ensures multiset(chosen) == multiset(WithUuids(PushedOptions(projects), uuids))
  {
    var all := SelectOptions(projects, collates);
    chosen := WithUuids(all[..], uuids);
    SameFilter(all[..], PushedOptions(projects), uuids);
  }

  /** `userSelectedProjects.map(project => project.uuid)`. */
  function Uuids(projects: seq<Project>): (uuids: seq<string>)
    ensures |uuids| == |projects|
    ensures forall i :: 0 <= i < |projects| ==> uuids[i] == projects[i].uuid
  {
    seq(|projects|, i requires 0 <= i < |projects| => projects[i].uuid)
  }

  /** Keeping the same uuids from two orderings of the same options keeps
      the same options. */
  lemma SameFilter(a: seq<SelectOption>, b: seq<SelectOption>, uuids: seq<string>)
    requires multiset(a) == multiset(b)
    ensures multiset(WithUuids(a, uuids)) == multiset(WithUuids(b, uuids))
  {
    forall o
      ensures multiset(WithUuids(a, uuids))[o] == multiset(WithUuids(b, uuids))[o]
    {
      WithUuidsCount(a, uuids, o);
      WithUuidsCount(b, uuids, o);
    }
  }

  /** The uuids of the selection, in selection order. */
  function SelectedUuids(selected: seq<SelectOption>): (uuids: seq<string>)
    ensures |uuids| == |selected|
    ensures forall i :: 0 <= i < |selected| ==> uuids[i] == selected[i].selectValue
  {
    seq(|selected|, i requires 0 <= i < |selected| => selected[i].selectValue)
  }

  /** The query parameters of the report request. */
  datatype UrlParams = UrlParams(startDate: string, endDate: string, projectUuids: string)

  /** `formattedDate`: a valid "D.M.YYYY" date is reformatted, anything else
      is passed through. */
  function FormattedDate(date: string, isValidDate: string -> bool, reformat: string -> string): (s: string)
    ensures !isValidDate(date) ==> s == date
    ensures isValidDate(date) ==> s == reformat(date)
  {
    if isValidDate(date) then reformat(date) else date
  }

  /** `getUrlParams`: both dates formatted, and the selected uuids joined
      with ",", which splits back into the uuids when none contains a
      comma. */
  function GetUrlParams(startDate: string, endDate: string, selected: seq<SelectOption>,
                        isValidDate: string -> bool, reformat: string -> string): (params: UrlParams)
    ensures params.startDate == FormattedDate(startDate, isValidDate, reformat)
    ensures params.endDate == FormattedDate(endDate, isValidDate, reformat)
    ensures selected != [] && (forall i :: 0 <= i < |selected| ==> ',' !in selected[i].selectValue) ==>
      Split(params.projectUuids, ',') == SelectedUuids(selected)
    ensures selected == [] ==> params.projectUuids == ""
  {
    var uuids := SelectedUuids(selected);
    var params := UrlParams(FormattedDate(startDate, isValidDate, reformat),
                            FormattedDate(endDate, isValidDate, reformat),
                            Join(uuids, ","));
    if selected != [] && (forall i :: 0 <= i < |selected| ==> ',' !in selected[i].selectValue)
    then SplitJoin(uuids, ','); params
    else params
  }

  /** `getSalesReportFileName`: "myyntiraportti_<start>_<end>.xlsx". */
  function SalesReportFileName(startDate: string, endDate: string,
                               isValidDate: string -> bool, reformat: string -> string): (name: string)
    ensures |name| >= 20
    ensures name[..15] == "myyntiraportti_" && name[|name| - 5..] == ".xlsx"
  {
    "myyntiraportti_" + FormattedDate(startDate, isValidDate, reformat) + "_"
      + FormattedDate(endDate, isValidDate, reformat) + ".xlsx"
  }

  /** The file name gives the two dates back as long as neither contains
      an underscore. */
  lemma FileNameNamesDates(startDate: string, endDate: string,
                           isValidDate: string -> bool, reformat: string -> string)
    requires '_' !in FormattedDate(startDate, isValidDate, reformat)
    requires '_' !in FormattedDate(endDate, isValidDate, reformat)
    ensures var name := SalesReportFileName(startDate, endDate, isValidDate, reformat);
      Split(name[..|name| - 5], '_')
        == ["myyntiraportti", FormattedDate(startDate, isValidDate, reformat), FormattedDate(endDate, isValidDate, reformat)]
  {
    var s := FormattedDate(startDate, isValidDate, reformat);
    var e := FormattedDate(endDate, isValidDate, reformat);
    var name := SalesReportFileName(startDate, endDate, isValidDate, reformat);
    var parts := ["myyntiraportti", s, e];
    assert name[..|name| - 5] == Join(parts, "_") by {
      assert parts[1..] == [s, e] && parts[1..][1..] == [e];
      assert Join([s, e], "_") == s + "_" + e;
      assert Join(parts, "_") == "myyntiraportti" + "_" + (s + "_" + e);
      assert name == "myyntiraportti" + "_" + (s + "_" + e) + ".xlsx";
    }
    assert '_' !in "myyntiraportti";
    SplitJoin(parts, '_');
  }
}
