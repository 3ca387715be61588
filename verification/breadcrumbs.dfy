/** The virtual breadcrumb trail the three migration engines build for each file card:
    data attributes with defaults, a fixed month, an employee label given a dummy ID,
    and a fixed sub-folder (full_migration_engine.py:178-199, repeated in the other two). */
module Breadcrumbs {
  import opened Wrappers
  import Text
  import PathResolver

  /** The `data-*` attributes of a file card; `None` when the attribute is absent. */
  datatype Attributes = Attributes(
    group: Option<string>,
    department: Option<string>,
    category: Option<string>,
    year: Option<string>,
    employee: Option<string>)

  /** The five breadcrumb values after defaulting; the production queue stores exactly these. */
  datatype Crumbs = Crumbs(group: string, dept: string, status: string, year: string, rawEmployee: string)

  /** `value or default`: Python's `or` replaces both `None` and the empty string. */
  function OrDefault(value: Option<string>, default: string): (r: string)
    ensures |default| > 0 ==> |r| > 0
    ensures r == default || (value.Some? && r == value.value)
  {
    if value.Some? && value.value != "" then value.value else default
  }

  /** Lines 178-189: each attribute, or its default when absent or empty. */
  function FromAttributes(a: Attributes): (c: Crumbs)
    ensures |c.group| > 0 && |c.dept| > 0 && |c.status| > 0 && |c.year| > 0 && |c.rawEmployee| > 0
    ensures a.group == Some(c.group) || (c.group == "DefaultGroup" && (a.group == None || a.group == Some("")))
    ensures a.department == Some(c.dept) || (c.dept == "HR" && (a.department == None || a.department == Some("")))
    ensures a.category == Some(c.status) || (c.status == "Active" && (a.category == None || a.category == Some("")))
    ensures a.year == Some(c.year) || (c.year == "2023" && (a.year == None || a.year == Some("")))
    ensures a.employee == Some(c.rawEmployee) || (c.rawEmployee == "UnknownUser" && (a.employee == None || a.employee == Some("")))
  {
    Crumbs(
      OrDefault(a.group, "DefaultGroup"),
      OrDefault(a.department, "HR"),
      OrDefault(a.category, "Active"),
      OrDefault(a.year, "2023"),
      OrDefault(a.employee, "UnknownUser"))
  }

  const VirtualMonth: string := "11_nov"
  const VirtualSubfolder: string := "Docs"
  const DummyId: string := " ( 9999 )"

  /** Lines 190-194: an employee label without `(` is given the dummy ID, so that the
      configured rewrite that strips IDs always has one to strip. */
  function VirtualEmployee(raw: string): (r: string)
    ensures '(' in r
    ensures '(' in raw <==> r == raw
    ensures '(' !in raw ==> r == raw + DummyId
  {
    if '(' !in raw then
      assert (raw + DummyId)[|raw| + 1] == '(';
      raw + DummyId
    else raw
  }

  /** Adding the dummy ID is idempotent. */
  lemma VirtualEmployeeIdempotent(raw: string)
    ensures VirtualEmployee(VirtualEmployee(raw)) == VirtualEmployee(raw)
  {
  }

  /** Line 199: the seven-element web hierarchy. */
  function WebHierarchy(c: Crumbs): (h: seq<string>)
    ensures |h| == 7
    ensures h[0] == c.group && h[1] == c.dept && h[2] == c.status && h[3] == c.year
    ensures h[4] == "11_nov" && h[5] == VirtualEmployee(c.rawEmployee) && h[6] == "Docs"
  {
    [c.group, c.dept, c.status, c.year, VirtualMonth, VirtualEmployee(c.rawEmployee), VirtualSubfolder]
  }

  /** With at most seven distinct level names, none of them `FileName`, every level is
      bound to its breadcrumb: the `"Unknown"` padding never applies to this hierarchy. */
  lemma {:induction false} EveryLevelBound(levels: seq<string>, c: Crumbs, filename: string, i: nat)
    requires |levels| <= 7 && i < |levels|
    requires forall m, n :: 0 <= m < n < |levels| ==> levels[m] != levels[n]
    requires levels[i] != "FileName"
    ensures PathResolver.Lookup(PathResolver.BuildContext(levels, WebHierarchy(c), filename), levels[i]) == Some(WebHierarchy(c)[i])
  {
    PathResolver.BoundValueAtLastOccurrence(levels, WebHierarchy(c), |levels|, i);
  }
}
