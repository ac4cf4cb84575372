/** The filter panel of the company list (src/components/companies/CompanyFilters.tsx). It
    holds a filter record as component state, replaces it on every change or reset, and reports
    to its parent through two callbacks. The record is a dictionary from field name to value,
    since `handleChange` accepts any key; the callbacks are recorded as a log of calls. */
module Filters {
  import opened JsValues

  /** The filter record; the date range's picker objects are abstracted to a `Value`. */
  type FilterSet = map<string, Value>

  /** The fields the panel starts with and returns to on reset. */
  const FieldNames: set<string> :=
    {"search", "region", "industry", "status", "country", "dateRange", "sortBy", "sortOrder"}

  const InitialFilters: FilterSet := map[
    "search" := Str(""),
    "region" := Undefined,
    "industry" := Undefined,
    "status" := Undefined,
    "country" := Undefined,
    "dateRange" := Undefined,
    "sortBy" := Str("updatedAt"),
    "sortOrder" := Str("desc")]

  /** A call the panel makes to its parent. */
  datatype Callback = FilterChange(filters: FilterSet) | Reset

  /** `{ ...filters, [key]: value }`. */
  function Changed(filters: FilterSet, key: string, value: Value): (next: FilterSet)
    ensures next.Keys == filters.Keys + {key}
    ensures next[key] == value
    ensures forall k :: k in filters && k != key ==> next[k] == filters[k]
  {
    filters[key := value]
  }

  /** The initial record: an empty search, newest first, and every other filter unset. */
  lemma InitialValues()
    ensures InitialFilters.Keys == FieldNames
    ensures InitialFilters["search"] == Str("")
    ensures InitialFilters["sortBy"] == Str("updatedAt") && InitialFilters["sortOrder"] == Str("desc")
    ensures forall k :: k in InitialFilters && k !in {"search", "sortBy", "sortOrder"} ==>
      InitialFilters[k] == Undefined
  {
  }

  /** Changing a key twice keeps only the second value. */
  lemma ChangeTwice(filters: FilterSet, key: string, first: Value, second: Value)
    ensures Changed(Changed(filters, key, first), key, second) == Changed(filters, key, second)
  {
  }

  /** Changes to two different keys can be made in either order. */
  lemma ChangesCommute(filters: FilterSet, k1: string, v1: Value, k2: string, v2: Value)
    requires k1 != k2
    ensures Changed(Changed(filters, k1, v1), k2, v2) == Changed(Changed(filters, k2, v2), k1, v1)
  {
  }

  /** Setting a field to the value it already has leaves the record as it was. */
  lemma ChangeToSameValue(filters: FilterSet, key: string)
    requires key in filters
    ensures Changed(filters, key, filters[key]) == filters
  {
  }

  /** A change made from the initial record keeps the eight fields, plus the key if new. */
  lemma ChangeKeepsFields(filters: FilterSet, key: string, value: Value)
    requires FieldNames <= filters.Keys
    ensures FieldNames <= Changed(filters, key, value).Keys
    ensures key in FieldNames ==> Changed(filters, key, value).Keys == filters.Keys
  {
  }

  // ---------------------------------------------------------------------------
  // The user's actions and what they do

  datatype Event = Change(key: string, value: Value) | ResetClicked | ApplyClicked

  /** The record after an event (each handler sees the state of the latest render). */
  function Next(filters: FilterSet, e: Event): FilterSet
  {
    match e
    case Change(key, value) => Changed(filters, key, value)
    case ResetClicked => InitialFilters
    case ApplyClicked => filters
  }

  /** The call an event makes to the parent. */
  function Report(filters: FilterSet, e: Event): (c: Callback)
    ensures e.ResetClicked? <==> c == Reset
    ensures !e.ResetClicked? ==> c == FilterChange(Next(filters, e))
  {
    match e
    case Change(key, value) => FilterChange(Changed(filters, key, value))
    case ResetClicked => Reset
    case ApplyClicked => FilterChange(filters)
  }

  /** The record after a run of events, first to last. */
  function Replay(filters: FilterSet, events: seq<Event>): FilterSet
    decreases |events|
  {
    if events == [] then filters else Replay(Next(filters, events[0]), events[1..])
  }

  /** The calls a run of events makes, in order. */
  function Calls(filters: FilterSet, events: seq<Event>): (calls: seq<Callback>)
    ensures |calls| == |events|
    decreases |events|
  {
    if events == [] then [] else [Report(filters, events[0])] + Calls(Next(filters, events[0]), events[1..])
  }

  /** Resetting twice is the same as resetting once, and reset forgets every earlier change. */
  lemma ResetIdempotent(filters: FilterSet)
    ensures Next(Next(filters, ResetClicked), ResetClicked) == Next(filters, ResetClicked)
    ensures Next(filters, ResetClicked) == InitialFilters
  {
  }

  /** Whatever happened before, a run that ends with a reset ends at the initial record. */
  lemma {:induction false} ResetForgets(filters: FilterSet, events: seq<Event>)
    requires events != [] && events[|events| - 1].ResetClicked?
    ensures Replay(filters, events) == InitialFilters
    decreases |events|
  {
    if |events| > 1 {
      ResetForgets(Next(filters, events[0]), events[1..]);
    }
  }

  /** Every change call hands the parent the record the panel holds right after the event. */
  lemma {:induction false} ReportsCurrentRecord(filters: FilterSet, events: seq<Event>, i: nat)
    requires i < |events| && !events[i].ResetClicked?
    ensures Calls(filters, events)[i] == FilterChange(Replay(filters, events[..i + 1]))
    decreases i
  {
    if i == 0 {
      assert events[..1][1..] == [];
    } else {
      ReportsCurrentRecord(Next(filters, events[0]), events[1..], i - 1);
      assert events[1..][..i] == events[..i + 1][1..];
    }
  }

  /** Every reset in a run calls `onReset`, and the panel holds the initial record right after it. */
  lemma {:induction false} ReportsReset(filters: FilterSet, events: seq<Event>, i: nat)
    requires i < |events| && events[i].ResetClicked?
    ensures Calls(filters, events)[i] == Reset
    ensures Replay(filters, events[..i + 1]) == InitialFilters
    decreases i
  {
    if i > 0 {
      ReportsReset(Next(filters, events[0]), events[1..], i - 1);
    }
    ResetForgets(filters, events[..i + 1]);
  }

  // ---------------------------------------------------------------------------
  // The component

  class CompanyFilters {
    /** The component state `filters`. */
    var filters: FilterSet
    /** Every call made so far to `onFilterChange` or `onReset`, oldest first. */
    var calls: seq<Callback>

    constructor ()
      ensures filters == InitialFilters && calls == []
    {
      filters := InitialFilters;
      calls := [];
    }

    /** `handleChange(key, value)`: store the updated record and report it. */
    method HandleChange(key: string, value: Value)
      modifies this
      ensures filters == Changed(old(filters), key, value)
      ensures calls == old(calls) + [FilterChange(filters)]
    {
      var newFilters := filters[key := value];
      filters := newFilters;
      calls := calls + [FilterChange(newFilters)];
    }

    /** `handleReset()`: restore the initial record and call `onReset`, not `onFilterChange`. */
    method HandleReset()
      modifies this
      ensures filters == InitialFilters
      ensures calls == old(calls) + [Reset]
    {
      filters := map[
        "search" := Str(""),
        "region" := Undefined,
        "industry" := Undefined,
        "status" := Undefined,
        "country" := Undefined,
        "dateRange" := Undefined,
        "sortBy" := Str("updatedAt"),
        "sortOrder" := Str("desc")];
      calls := calls + [Reset];
    }

    /** The apply button: report the current record unchanged. */
    method ApplyFilters()
      modifies this
      ensures filters == old(filters)
      ensures calls == old(calls) + [FilterChange(filters)]
    {
      calls := calls + [FilterChange(filters)];
    }

    /** Handle one event; the state and the call follow `Next` and `Report`. */
    method Handle(e: Event)
      modifies this
      ensures filters == Next(old(filters), e)
      ensures calls == old(calls) + [Report(old(filters), e)]
    {
      match e
      case Change(key, value) => HandleChange(key, value);
      case ResetClicked => HandleReset();
      case ApplyClicked => ApplyFilters();
    }
  }
}
