/** The client-side utilities of src/utils/helpers.ts: status, region and industry
    lookups, the search filter, the field sort, the CSV text builder and parser,
    and the colour hash. Browser I/O (Blob, FileReader, download links) is outside
    the model; only the strings that are built and parsed are modelled. */
module Helpers {
  import opened JsValues
  import opened Types

  // ===========================================================================
  // Lookup tables with fallbacks (src/utils/helpers.ts:39-96)

  const StatusColors: map<string, string> := map[
    "active" := "green", "pending" := "gold", "inactive" := "default",
    "planning" := "blue", "in_progress" := "processing", "completed" := "success",
    "delayed" := "error", "cancelled" := "default"]

  /** `colors[status] || 'default'`: every entry is a non-empty string, so the fallback
      applies exactly to statuses the table does not list. */
  function GetStatusColor(status: string): (color: string)
    ensures color in {"green", "gold", "default", "blue", "processing", "success", "error"}
    ensures color != "default" <==>
      status in {"active", "pending", "planning", "in_progress", "completed", "delayed"}
  {
    if status in StatusColors && StatusColors[status] != "" then StatusColors[status] else "default"
  }

  const StatusTexts: map<string, string> := map[
    "active" := "运营中", "pending" := "待审核", "inactive" := "已停运",
    "planning" := "规划中", "in_progress" := "进行中", "completed" := "已完成",
    "delayed" := "已延期", "cancelled" := "已取消"]

  /** `texts[status] || status`: a listed status gets its label, any other string comes back as is. */
  function GetStatusText(status: string): (text: string)
    ensures text != status <==> status in StatusTexts
    ensures status in StatusTexts ==> text in StatusTexts.Values
  {
    if status in StatusTexts && StatusTexts[status] != "" then StatusTexts[status] else status
  }

  /** Every company and roadmap status of the closed unions has its own label. */
  lemma StatusTextsDistinguishStatuses()
    ensures forall s: CompanyStatus :: GetStatusText(CompanyStatusName(s)) != CompanyStatusName(s)
    ensures forall s: RoadmapStatus :: GetStatusText(RoadmapStatusName(s)) != RoadmapStatusName(s)
    ensures forall a: string, b: string ::
      a in StatusTexts && b in StatusTexts && GetStatusText(a) == GetStatusText(b) ==> a == b
  {
  }

  const RegionLabels: map<string, string> := map[
    "中国大陆" := "🇨🇳 中国大陆", "台湾" := "🇹🇼 台湾", "美国" := "🇺🇸 美国",
    "日本" := "🇯🇵 日本", "韩国" := "🇰🇷 韩国", "欧洲" := "🇪🇺 欧洲", "其他" := "🌍 其他"]

  /** `labels[region] || region`: the label always ends with the region itself,
      and differs from it exactly for the seven listed regions. */
  function GetRegionLabel(region: string): (shown: string)
    ensures |region| <= |shown| && shown[|shown| - |region|..] == region
    ensures shown != region <==> region in RegionLabels
  {
    if region in RegionLabels && RegionLabels[region] != "" then RegionLabels[region] else region
  }

  lemma RegionsAllLabelled()
    ensures forall r: Region :: GetRegionLabel(RegionName(r)) != RegionName(r)
  {
  }

  const IndustryIcons: map<string, string> := map[
    "设计" := "💻", "制造" := "🏭", "封测" := "📦", "设备" := "⚙️",
    "材料" := "🔬", "IP/EDA" := "📐", "其他" := "📊"]

  /** `icons[industry] || '📊'`: the "other" icon doubles as the fallback, so it is shown
      exactly for "其他" and for unlisted industries. */
  function GetIndustryIcon(industry: string): (icon: string)
    ensures icon in IndustryIcons.Values
    ensures icon != "📊" <==> industry in {"设计", "制造", "封测", "设备", "材料", "IP/EDA"}
  {
    assert IndustryIcons["其他"] == "📊";
    if industry in IndustryIcons && IndustryIcons[industry] != "" then IndustryIcons[industry] else "📊"
  }

  lemma IndustryIconsDistinguishIndustries()
    ensures forall a: Industry, b: Industry ::
      (a != OtherIndustry && b != OtherIndustry &&
       GetIndustryIcon(IndustryName(a)) == GetIndustryIcon(IndustryName(b))) ==> a == b
  {
  }

  // ===========================================================================
  // Rows: plain objects with their keys in insertion order

  datatype Field = Field(name: string, value: Value)

  type Row = seq<Field>

  function Names(row: Row): (names: seq<string>)
    ensures |names| == |row|
  {
    if row == [] then [] else [row[0].name] + Names(row[1..])
  }

  /** The `i`th key is the `i`th field's name. */
  lemma {:induction false} NameAt(row: Row, i: nat)
    requires i < |row|
    ensures Names(row)[i] == row[i].name
  {
    if i > 0 {
      NameAt(row[1..], i - 1);
    }
  }

  /** `row[name]`: the property's value, `undefined` when the row has no such key. */
  function Get(row: Row, name: string): Value
  {
    if row == [] then Undefined else if row[0].name == name then row[0].value else Get(row[1..], name)
  }

  /** A row without the key reads as `undefined`. */
  lemma {:induction false} GetMissing(row: Row, name: string)
    requires name !in Names(row)
    ensures Get(row, name) == Undefined
  {
    if row != [] {
      assert Names(row) == [row[0].name] + Names(row[1..]);
      GetMissing(row[1..], name);
    }
  }

  predicate Distinct(s: seq<string>)
  {
    forall i, j :: 0 <= i < j < |s| ==> s[i] != s[j]
  }

  lemma {:induction false} GetAt(row: Row, i: nat)
    requires i < |row| && Distinct(Names(row))
    ensures Get(row, row[i].name) == row[i].value
  {
    if i > 0 {
      NameAt(row, 0);
      NameAt(row, i);
      assert Names(row)[0] != Names(row)[i];
      assert Distinct(Names(row[1..])) by {
        forall a, b | 0 <= a < b < |row| - 1 ensures Names(row[1..])[a] != Names(row[1..])[b] {
          assert Names(row)[a + 1] != Names(row)[b + 1];
        }
      }
      GetAt(row[1..], i - 1);
    }
  }

  // ===========================================================================
  // filterBySearch (src/utils/helpers.ts:99-111)

  /** `String(item[field] || '').toLowerCase().includes(lowerSearch)`. */
  predicate FieldContains(item: Row, field: string, lowerSearch: string)
  {
    Includes(ToLowerCase(ToJsString(OrEmpty(Get(item, field)))), lowerSearch)
  }

  /** `searchFields.some(...)`. */
  predicate SomeFieldContains(item: Row, fields: seq<string>, lowerSearch: string)
  {
    fields != [] && (FieldContains(item, fields[0], lowerSearch) || SomeFieldContains(item, fields[1..], lowerSearch))
  }

  lemma {:induction false} SomeFieldContainsMeansSomeField(item: Row, fields: seq<string>, lowerSearch: string)
    ensures SomeFieldContains(item, fields, lowerSearch) <==>
            exists i :: 0 <= i < |fields| && FieldContains(item, fields[i], lowerSearch)
  {
    if fields != [] {
      SomeFieldContainsMeansSomeField(item, fields[1..], lowerSearch);
      if i :| 0 <= i < |fields| && FieldContains(item, fields[i], lowerSearch) {
        if i > 0 {
          assert fields[1..][i - 1] == fields[i];
        }
      }
      if j :| 0 <= j < |fields| - 1 && FieldContains(item, fields[1..][j], lowerSearch) {
        assert FieldContains(item, fields[j + 1], lowerSearch);
      }
    }
  }

  ghost predicate IsSubsequence<T>(a: seq<T>, b: seq<T>)
  {
    if a == [] then true
    else if b == [] then false
    else (a[0] == b[0] && IsSubsequence(a[1..], b[1..])) || IsSubsequence(a, b[1..])
  }

  /** `items.filter(item => searchFields.some(...))`. */
  function KeepMatching(items: seq<Row>, fields: seq<string>, lowerSearch: string): (kept: seq<Row>)
    ensures IsSubsequence(kept, items)
    ensures forall x :: multiset(kept)[x] ==
                        if SomeFieldContains(x, fields, lowerSearch) then multiset(items)[x] else 0
  {
    if items == [] then []
    else
      var rest := KeepMatching(items[1..], fields, lowerSearch);
      assert items == [items[0]] + items[1..];
      if SomeFieldContains(items[0], fields, lowerSearch) then
        assert ([items[0]] + rest)[1..] == rest;
        [items[0]] + rest
      else
        rest
  }

  /** filterBySearch: an empty search text keeps the list as it is; otherwise the result is the
      order-preserving sublist of the items in which some listed field contains the search text,
      ignoring case, every matching item kept as often as it occurs. */
  function FilterBySearch(items: seq<Row>, searchText: string, searchFields: seq<string>): (r: seq<Row>)
    ensures searchText == "" ==> r == items
    ensures IsSubsequence(r, items)
    ensures searchText != "" ==>
              forall x :: multiset(r)[x] ==
                          if SomeFieldContains(x, searchFields, ToLowerCase(searchText)) then multiset(items)[x] else 0
  {
    if searchText == "" then
      assert IsSubsequence(items, items) by { SubsequenceOfItself(items); }
      items
    else KeepMatching(items, searchFields, ToLowerCase(searchText))
  }

  lemma {:induction false} SubsequenceOfItself<T>(s: seq<T>)
    ensures IsSubsequence(s, s)
  {
    if s != [] {
      SubsequenceOfItself(s[1..]);
    }
  }

  /** A field holding 0, false, null or undefined reads as '' and so matches no non-empty
      search text: searching "0" does not find a row whose field is the number 0. */
  lemma FalsyFieldNeverMatches(item: Row, field: string, lowerSearch: string)
    requires Falsy(Get(item, field))
    requires lowerSearch != ""
    ensures !FieldContains(item, field, lowerSearch)
  {
    IncludesAt("", lowerSearch);
  }

  // ===========================================================================
  // sortByField (src/utils/helpers.ts:114-126)

  /** A sort key. Keys of one kind compare as JavaScript's `<` does: numbers numerically,
      strings by UTF-16 code units. Numbers are ordered before strings. */
  datatype Key = Number(n: int) | Text(s: string)

  datatype SortOrder = Asc | Desc

  predicate LexLess(a: seq<int>, b: seq<int>)
  {
    if a == [] then b != []
    else b != [] && (a[0] < b[0] || (a[0] == b[0] && LexLess(a[1..], b[1..])))
  }

  lemma {:induction false} LexLessIsStrictTotal(a: seq<int>, b: seq<int>, c: seq<int>)
    ensures !LexLess(a, a)
    ensures LexLess(a, b) ==> !LexLess(b, a)
    ensures a != b ==> LexLess(a, b) || LexLess(b, a)
    ensures LexLess(a, b) && LexLess(b, c) ==> LexLess(a, c)
  {
    if a != [] && b != [] && c != [] {
      LexLessIsStrictTotal(a[1..], b[1..], c[1..]);
      if a != b && a[0] == b[0] {
        assert a == [a[0]] + a[1..] && b == [b[0]] + b[1..];
      }
    } else if a != [] && b != [] {
      LexLessIsStrictTotal(a[1..], b[1..], []);
      if a != b && a[0] == b[0] {
        assert a == [a[0]] + a[1..] && b == [b[0]] + b[1..];
      }
    } else if a != [] {
      LexLessIsStrictTotal(a[1..], a[1..], a[1..]);
    }
  }

  /** `aVal < bVal`. */
  predicate KeyLess(a: Key, b: Key)
  {
    match (a, b)
    case (Number(x), Number(y)) => x < y
    case (Text(x), Text(y)) => LexLess(Utf16(x), Utf16(y))
    case (Number(_), Text(_)) => true
    case (Text(_), Number(_)) => false
  }

  /** Keys the comparator returns 0 for. */
  predicate SameKey(a: Key, b: Key)
  {
    !KeyLess(a, b) && !KeyLess(b, a)
  }

  /** `<` on keys is a strict weak order: asymmetric, and "not less" is transitive. */
  lemma KeyLessIsStrictWeak(a: Key, b: Key, c: Key)
    ensures KeyLess(a, b) ==> !KeyLess(b, a)
    ensures KeyLess(a, c) ==> KeyLess(a, b) || KeyLess(b, c)
  {
    if a.Text? && b.Text? && c.Text? {
      LexLessIsStrictTotal(Utf16(a.s), Utf16(b.s), Utf16(c.s));
      LexLessIsStrictTotal(Utf16(b.s), Utf16(a.s), Utf16(c.s));
      LexLessIsStrictTotal(Utf16(a.s), Utf16(c.s), Utf16(b.s));
      LexLessIsStrictTotal(Utf16(b.s), Utf16(c.s), Utf16(a.s));
    } else if a.Text? && b.Text? {
      LexLessIsStrictTotal(Utf16(a.s), Utf16(b.s), Utf16(b.s));
    }
  }

  /** The comparator of line 119 is negative: `a` goes before `b`. */
  predicate Before(order: SortOrder, a: Key, b: Key)
  {
    if order == Asc then KeyLess(a, b) else KeyLess(b, a)
  }

  lemma BeforeIsStrictWeak(order: SortOrder, a: Key, b: Key, c: Key)
    ensures Before(order, a, b) ==> !Before(order, b, a)
    ensures Before(order, a, c) ==> Before(order, a, b) || Before(order, b, c)
    ensures Before(order, a, b) ==> !SameKey(a, b)
  {
    KeyLessIsStrictWeak(a, b, c);
    KeyLessIsStrictWeak(c, b, a);
    KeyLessIsStrictWeak(b, a, a);
  }

  /** Keys non-decreasing for 'asc', non-increasing for 'desc'. */
  ghost predicate SortedBy<T>(s: seq<T>, field: T -> Key, order: SortOrder)
  {
    forall i, j :: 0 <= i < j < |s| ==> !Before(order, field(s[j]), field(s[i]))
  }

  /** One step of a stable insertion sort: `x` goes after every element it does not precede. */
  function InsertSorted<T>(s: seq<T>, x: T, field: T -> Key, order: SortOrder): seq<T>
  {
    if s == [] || !Before(order, field(x), field(s[|s| - 1])) then s + [x]
    else InsertSorted(s[..|s| - 1], x, field, order) + [s[|s| - 1]]
  }

  /** `k` may be placed after every element of `s`: it precedes none of them. */
  ghost predicate NoneAfter<T>(s: seq<T>, k: Key, field: T -> Key, order: SortOrder)
  {
    forall i :: 0 <= i < |s| ==> !Before(order, k, field(s[i]))
  }

  lemma SortedSnoc<T>(s: seq<T>, y: T, field: T -> Key, order: SortOrder)
    ensures SortedBy(s + [y], field, order) <==> SortedBy(s, field, order) && NoneAfter(s, field(y), field, order)
  {
    var t := s + [y];
    assert forall i :: 0 <= i < |s| ==> t[i] == s[i];
    assert t[|s|] == y;
  }

  lemma {:induction false} InsertSortedPermutes<T>(s: seq<T>, x: T, field: T -> Key, order: SortOrder)
    ensures multiset(InsertSorted(s, x, field, order)) == multiset(s) + multiset{x}
  {
    if s != [] && Before(order, field(x), field(s[|s| - 1])) {
      var init, last := s[..|s| - 1], s[|s| - 1];
      assert s == init + [last];
      InsertSortedPermutes(init, x, field, order);
    }
  }

  lemma {:induction false} InsertSortedNoneAfter<T>(s: seq<T>, x: T, k: Key, field: T -> Key, order: SortOrder)
    requires NoneAfter(s, k, field, order) && !Before(order, k, field(x))
    ensures NoneAfter(InsertSorted(s, x, field, order), k, field, order)
  {
    if s == [] || !Before(order, field(x), field(s[|s| - 1])) {
      SortedSnoc(s, x, field, order);
      var t := s + [x];
      assert forall i :: 0 <= i < |s| ==> t[i] == s[i];
    } else {
      var init, last := s[..|s| - 1], s[|s| - 1];
      assert forall i :: 0 <= i < |init| ==> init[i] == s[i];
      InsertSortedNoneAfter(init, x, k, field, order);
      var t := InsertSorted(init, x, field, order);
      var r := t + [last];
      assert forall i :: 0 <= i < |t| ==> r[i] == t[i];
      assert r[|t|] == last;
    }
  }

  lemma {:induction false} InsertSortedKeepsOrder<T>(s: seq<T>, x: T, field: T -> Key, order: SortOrder)
    requires SortedBy(s, field, order)
    ensures SortedBy(InsertSorted(s, x, field, order), field, order)
  {
    if s == [] || !Before(order, field(x), field(s[|s| - 1])) {
      forall i | 0 <= i < |s| ensures !Before(order, field(x), field(s[i])) {
        if i < |s| - 1 {
          BeforeIsStrictWeak(order, field(x), field(s[|s| - 1]), field(s[i]));
        }
      }
      SortedSnoc(s, x, field, order);
    } else {
      var init, last := s[..|s| - 1], s[|s| - 1];
      assert s == init + [last];
      SortedSnoc(init, last, field, order);
      InsertSortedKeepsOrder(init, x, field, order);
      BeforeIsStrictWeak(order, field(x), field(last), field(last));
      InsertSortedNoneAfter(init, x, field(last), field, order);
      SortedSnoc(InsertSorted(init, x, field, order), last, field, order);
    }
  }

  /** sortByField: `[...items].sort(comparator)`. The input sequence is a value and is never
      changed; the result is a permutation of it with keys in the requested order.
      Array.prototype.sort is stable, which the insertion sort below is too. */
  function SortByField<T(==)>(items: seq<T>, field: T -> Key, order: SortOrder := Asc): (r: seq<T>)
    ensures multiset(r) == multiset(items)
    ensures SortedBy(r, field, order)
  {
    if items == [] then []
    else
      var init, last := items[..|items| - 1], items[|items| - 1];
      assert items == init + [last];
      var sortedInit := SortByField(init, field, order);
      InsertSortedPermutes(sortedInit, last, field, order);
      InsertSortedKeepsOrder(sortedInit, last, field, order);
      InsertSorted(sortedInit, last, field, order)
  }

  /** Sorting a list that is already in order leaves it unchanged (the sort is idempotent). */
  lemma {:induction false} SortSortedIsIdentity<T>(s: seq<T>, field: T -> Key, order: SortOrder)
    requires SortedBy(s, field, order)
    ensures SortByField(s, field, order) == s
  {
    if s != [] {
      var init, last := s[..|s| - 1], s[|s| - 1];
      assert s == init + [last];
      SortedSnoc(init, last, field, order);
      SortSortedIsIdentity(init, field, order);
      assert InsertSorted(init, last, field, order) == s;
    }
  }

  /** The elements whose key compares equal to `k`, in order. */
  function WithKey<T>(s: seq<T>, field: T -> Key, k: Key): (r: seq<T>)
  {
    if s == [] then []
    else WithKey(s[..|s| - 1], field, k) + (if SameKey(field(s[|s| - 1]), k) then [s[|s| - 1]] else [])
  }

  lemma {:induction false} WithKeyAppend<T>(s: seq<T>, x: T, field: T -> Key, k: Key)
    ensures WithKey(s + [x], field, k) == WithKey(s, field, k) + (if SameKey(field(x), k) then [x] else [])
  {
    assert (s + [x])[..|s|] == s;
  }

  /** Two keys that both compare equal to `k` do not precede each other. */
  lemma SameKeyNotBefore(order: SortOrder, a: Key, b: Key, k: Key)
    requires SameKey(a, k) && SameKey(b, k)
    ensures !Before(order, a, b)
  {
    KeyLessIsStrictWeak(a, k, b);
    KeyLessIsStrictWeak(b, k, a);
  }

  lemma {:induction false} InsertSortedIsStable<T>(s: seq<T>, x: T, field: T -> Key, order: SortOrder, k: Key)
    ensures WithKey(InsertSorted(s, x, field, order), field, k) ==
            WithKey(s, field, k) + (if SameKey(field(x), k) then [x] else [])
  {
    if s == [] || !Before(order, field(x), field(s[|s| - 1])) {
      WithKeyAppend(s, x, field, k);
    } else {
      var init, last := s[..|s| - 1], s[|s| - 1];
      var t := InsertSorted(init, x, field, order);
      assert InsertSorted(s, x, field, order) == t + [last];
      assert s == init + [last];
      var lx := if SameKey(field(x), k) then [x] else [];
      var ll := if SameKey(field(last), k) then [last] else [];
      InsertSortedIsStable(init, x, field, order, k);
      WithKeyAppend(t, last, field, k);
      WithKeyAppend(init, last, field, k);
      if SameKey(field(x), k) && SameKey(field(last), k) {
        SameKeyNotBefore(order, field(x), field(last), k);
      }
      assert lx + ll == ll + lx;
      calc {
        WithKey(t + [last], field, k);
        WithKey(t, field, k) + ll;
        WithKey(init, field, k) + lx + ll;
        WithKey(init, field, k) + (lx + ll);
        WithKey(init, field, k) + ll + lx;
        WithKey(s, field, k) + lx;
      }
    }
  }

  /** The sort is stable: the items with any one key keep their original relative order. */
  lemma {:induction false} SortIsStable<T>(s: seq<T>, field: T -> Key, order: SortOrder, k: Key)
    ensures WithKey(SortByField(s, field, order), field, k) == WithKey(s, field, k)
  {
    if s != [] {
      var init, last := s[..|s| - 1], s[|s| - 1];
      SortIsStable(init, field, order, k);
      InsertSortedIsStable(SortByField(init, field, order), last, field, order, k);
    }
  }

  // ===========================================================================
  // CSV text built by exportToCSV (src/utils/helpers.ts:139-154)

  /** One cell: a string holding ',' is wrapped in double quotes (inner quotes are not escaped);
      other values are written as `join` writes them, null and undefined as nothing. */
  function Cell(v: Value): (cell: string)
    ensures v.Str? && ',' !in v.s ==> cell == v.s
    ensures v.Str? && ',' in v.s ==> cell == "\"" + v.s + "\""
    ensures v.Null? || v.Undefined? ==> cell == ""
  {
    match v
    case Str(s) => if ',' in s then "\"" + s + "\"" else s
    case Null => ""
    case Undefined => ""
    case _ => ToJsString(v)
  }

  function RowCells(row: Row, headers: seq<string>): (cells: seq<string>)
    ensures |cells| == |headers|
    ensures forall i :: 0 <= i < |headers| ==> cells[i] == Cell(Get(row, headers[i]))
  {
    seq(|headers|, i requires 0 <= i < |headers| => Cell(Get(row, headers[i])))
  }

  function DataLines(data: seq<Row>, headers: seq<string>): (lines: seq<string>)
    ensures |lines| == |data|
    ensures forall i :: 0 <= i < |data| ==> lines[i] == Join(RowCells(data[i], headers), ',')
  {
    seq(|data|, i requires 0 <= i < |data| => Join(RowCells(data[i], headers), ','))
  }

  /** The CSV text, or None when there is no row (no file is produced). */
  function CsvContent(data: seq<Row>): (text: Option<string>)
    ensures data == [] <==> text.None?
  {
    if data == [] then None
    else
      var headers := Names(data[0]);
      Some(Join([Join(headers, ',')] + DataLines(data, headers), '\n'))
  }

  lemma {:induction false} JoinWithout(parts: seq<string>, c: char, d: char)
    requires c != d
    requires NoPartContains(parts, d)
    ensures d !in Join(parts, c)
  {
    if |parts| > 1 {
      JoinWithout(parts[1..], c, d);
    }
  }

  /** No key or string value holds a line break. */
  predicate NoLineBreaks(data: seq<Row>)
  {
    forall i, j :: 0 <= i < |data| && 0 <= j < |data[i]| ==>
      '\n' !in data[i][j].name && (data[i][j].value.Str? ==> '\n' !in data[i][j].value.s)
  }

  /** A value's cell holds a line break only if the value's own text does. */
  lemma CellKeepsLines(v: Value)
    requires v.Str? ==> '\n' !in v.s
    ensures '\n' !in Cell(v)
  {
    if v.Num? {
      var s := IntToString(v.n);
      assert forall i :: 0 <= i < |s| ==> s[i] == '-' || '0' <= s[i] <= '9';
    }
  }

  lemma {:induction false} GetWithoutLineBreak(row: Row, name: string)
    requires forall j :: 0 <= j < |row| ==> row[j].value.Str? ==> '\n' !in row[j].value.s
    ensures Get(row, name).Str? ==> '\n' !in Get(row, name).s
  {
    if row != [] && row[0].name != name {
      GetWithoutLineBreak(row[1..], name);
    }
  }

  lemma CellWithoutLineBreak(row: Row, name: string)
    requires forall j :: 0 <= j < |row| ==> row[j].value.Str? ==> '\n' !in row[j].value.s
    ensures '\n' !in Cell(Get(row, name))
  {
    GetWithoutLineBreak(row, name);
    CellKeepsLines(Get(row, name));
  }

  /** Splitting the CSV text into lines gives the header line (the first row's keys joined by ',')
      and then one line per row with one cell per header: rows + 1 lines in all. */
  lemma ExportLines(data: seq<Row>)
    requires data != []
    requires NoLineBreaks(data)
    ensures var headers := Names(data[0]);
            var lines := Split(CsvContent(data).value, '\n');
            && |lines| == |data| + 1
            && lines[0] == Join(headers, ',')
            && forall i :: 0 <= i < |data| ==> lines[i + 1] == Join(RowCells(data[i], headers), ',')
  {
    var headers := Names(data[0]);
    var parts := [Join(headers, ',')] + DataLines(data, headers);
    forall k | 0 <= k < |headers| ensures '\n' !in headers[k] {
      NameAt(data[0], k);
    }
    JoinWithout(headers, ',', '\n');
    assert NoPartContains(parts, '\n') by {
      forall p | 1 <= p < |parts| ensures '\n' !in parts[p] {
        var cells := RowCells(data[p - 1], headers);
        forall j | 0 <= j < |cells| ensures '\n' !in cells[j] {
          CellWithoutLineBreak(data[p - 1], headers[j]);
        }
        JoinWithout(cells, ',', '\n');
      }
    }
    SplitJoin(parts, '\n');
  }

  // ===========================================================================
  // CSV text parsed by parseCSV (src/utils/helpers.ts:171-181)

  /** What parseCSV rejects with: `lines[0]` is undefined, so reading `.split` of it throws. */
  datatype ParseError = NoHeaderLine

  /** `lines.filter(line => line.trim())`. */
  function NonBlank(lines: seq<string>): seq<string>
  {
    if lines == [] then []
    else if Trim(lines[0]) != "" then [lines[0]] + NonBlank(lines[1..])
    else NonBlank(lines[1..])
  }

  /** The filter keeps only lines that are not blank, and keeps every line when none is. */
  lemma {:induction false} NonBlankKeeps(lines: seq<string>)
    ensures |NonBlank(lines)| <= |lines|
    ensures forall i :: 0 <= i < |NonBlank(lines)| ==> Trim(NonBlank(lines)[i]) != ""
    ensures (forall i :: 0 <= i < |lines| ==> Trim(lines[i]) != "") ==> NonBlank(lines) == lines
  {
    if lines != [] {
      NonBlankKeeps(lines[1..]);
      assert forall i :: 0 <= i < |lines| - 1 ==> lines[1..][i] == lines[i + 1];
      var r := NonBlank(lines);
      if Trim(lines[0]) != "" {
        assert forall i :: 0 < i < |r| ==> r[i] == NonBlank(lines[1..])[i - 1];
        assert lines == [lines[0]] + lines[1..];
      }
    }
  }

  /** Nothing survives the filter exactly when every line is blank. */
  lemma {:induction false} NonBlankEmpty(lines: seq<string>)
    ensures NonBlank(lines) == [] <==> forall i :: 0 <= i < |lines| ==> Trim(lines[i]) == ""
  {
    if lines != [] {
      NonBlankEmpty(lines[1..]);
      assert forall i :: 0 <= i < |lines| - 1 ==> lines[1..][i] == lines[i + 1];
    }
  }

  /** `line.split(',').map(v => v.trim())`. */
  function TrimmedCells(line: string): seq<string>
  {
    var parts := Split(line, ',');
    seq(|parts|, i requires 0 <= i < |parts| => Trim(parts[i]))
  }

  /** `values[index] || ''`: the cell at that index, or '' past the end of the line. */
  function CellAt(values: seq<string>, index: nat): string
  {
    if index < |values| then values[index] else ""
  }

  /** `obj[key] = v` on a plain object: an existing key keeps its place and takes the new value,
      a new key is added at the end. */
  function Assign(obj: Row, key: string, v: Value): Row
  {
    if obj == [] then [Field(key, v)]
    else if obj[0].name == key then [Field(key, v)] + obj[1..]
    else [obj[0]] + Assign(obj[1..], key, v)
  }

  /** After the assignment the object's keys are the old ones, with `key` added at the end when it
      was not among them. */
  lemma {:induction false} AssignNames(obj: Row, key: string, v: Value)
    ensures Names(Assign(obj, key, v)) == if key in Names(obj) then Names(obj) else Names(obj) + [key]
  {
    if obj != [] {
      assert Names(obj) == [obj[0].name] + Names(obj[1..]);
      var r := Assign(obj, key, v);
      if obj[0].name != key {
        AssignNames(obj[1..], key, v);
        assert r[1..] == Assign(obj[1..], key, v);
      } else {
        assert r[1..] == obj[1..];
      }
      assert Names(r) == [r[0].name] + Names(r[1..]);
    }
  }

  /** Reading `key` back gives the value just assigned. */
  lemma {:induction false} AssignSame(obj: Row, key: string, v: Value)
    ensures Get(Assign(obj, key, v), key) == v
  {
    if obj != [] && obj[0].name != key {
      AssignSame(obj[1..], key, v);
    }
  }

  /** Every other key keeps its value. */
  lemma {:induction false} AssignOther(obj: Row, key: string, v: Value, k: string)
    requires k != key
    ensures Get(Assign(obj, key, v), k) == Get(obj, k)
  {
    if obj != [] && obj[0].name != key {
      AssignOther(obj[1..], key, v, k);
    }
  }

  /** `s[j]` does not occur again among the first `n` elements. */
  predicate LastOccurrence(s: seq<string>, j: nat, n: nat)
    requires j < n <= |s|
  {
    forall i :: j < i < n ==> s[i] != s[j]
  }

  /** The accumulator of `headers.reduce(...)` after the first `n` headers. */
  function Fold(headers: seq<string>, values: seq<string>, n: nat): Row
    requires n <= |headers|
  {
    if n == 0 then [] else Assign(Fold(headers, values, n - 1), headers[n - 1], Str(CellAt(values, n - 1)))
  }

  lemma DistinctSnoc(s: seq<string>, x: string)
    requires Distinct(s) && x !in s
    ensures Distinct(s + [x])
  {
    var t := s + [x];
    forall i, j | 0 <= i < j < |t| ensures t[i] != t[j] {
      if j == |s| {
        assert t[i] == s[i];
      } else {
        assert t[i] == s[i] && t[j] == s[j];
      }
    }
  }

  lemma TakeSnoc<T>(s: seq<T>, n: nat)
    requires 0 < n <= |s|
    ensures s[..n] == s[..n - 1] + [s[n - 1]]
  {
  }

  /** The accumulator's keys are the headers read so far, each once. */
  lemma {:induction false} FoldKeys(headers: seq<string>, values: seq<string>, n: nat)
    requires n <= |headers|
    ensures Distinct(Names(Fold(headers, values, n)))
    ensures forall k :: k in Names(Fold(headers, values, n)) <==> k in headers[..n]
  {
    if n > 0 {
      FoldKeys(headers, values, n - 1);
      var prev := Fold(headers, values, n - 1);
      var key := headers[n - 1];
      AssignNames(prev, key, Str(CellAt(values, n - 1)));
      TakeSnoc(headers, n);
      var names, before := Names(Fold(headers, values, n)), Names(prev);
      if key in before {
        assert names == before;
      } else {
        assert names == before + [key];
        DistinctSnoc(before, key);
      }
    }
  }

  /** Under a header, the cell at that header's last index so far. */
  lemma {:induction false} FoldValue(headers: seq<string>, values: seq<string>, n: nat, j: nat)
    requires j < n <= |headers| && LastOccurrence(headers, j, n)
    ensures Get(Fold(headers, values, n), headers[j]) == Str(CellAt(values, j))
  {
    var prev := Fold(headers, values, n - 1);
    if j < n - 1 {
      AssignOther(prev, headers[n - 1], Str(CellAt(values, n - 1)), headers[j]);
      FoldValue(headers, values, n - 1, j);
    } else {
      AssignSame(prev, headers[n - 1], Str(CellAt(values, n - 1)));
    }
  }

  /** The record one data line becomes. */
  function RecordOf(headers: seq<string>, values: seq<string>): (obj: Row)
  {
    Fold(headers, values, |headers|)
  }

  /** With distinct headers a record is exactly the headers, in order, paired with their cells. */
  lemma {:induction false} FoldDistinct(headers: seq<string>, values: seq<string>, n: nat)
    requires n <= |headers| && Distinct(headers)
    ensures Fold(headers, values, n) == seq(n, j requires 0 <= j < n => Field(headers[j], Str(CellAt(values, j))))
  {
    if n > 0 {
      FoldDistinct(headers, values, n - 1);
      var prev := Fold(headers, values, n - 1);
      forall k | 0 <= k < n - 1 ensures Names(prev)[k] == headers[k] {
        NameAt(prev, k);
      }
      assert Names(prev) == headers[..n - 1];
      assert headers[n - 1] !in headers[..n - 1];
      AssignNew(prev, headers[n - 1], Str(CellAt(values, n - 1)));
    }
  }

  lemma {:induction false} AssignNew(obj: Row, key: string, v: Value)
    requires key !in Names(obj)
    ensures Assign(obj, key, v) == obj + [Field(key, v)]
  {
    if obj != [] {
      assert Names(obj) == [obj[0].name] + Names(obj[1..]);
      AssignNew(obj[1..], key, v);
      assert obj == [obj[0]] + obj[1..];
    }
  }

  /** The result of parseCSV, as a function of the file's text. */
  function Parse(text: string): (r: Result<seq<Row>, ParseError>)
  {
    var lines := NonBlank(Split(text, '\n'));
    if lines == [] then Err(NoHeaderLine)
    else
      var headers := TrimmedCells(lines[0]);
      Ok(seq(|lines| - 1, i requires 0 <= i < |lines| - 1 => RecordOf(headers, TrimmedCells(lines[i + 1]))))
  }

  /** The reduce at lines 177-180, run as a loop that assigns one key per header. */
  method BuildRecord(headers: seq<string>, values: seq<string>) returns (obj: Row)
    ensures obj == RecordOf(headers, values)
  {
    obj := [];
    for index := 0 to |headers|
      invariant obj == Fold(headers, values, index)
    {
      obj := Assign(obj, headers[index], Str(CellAt(values, index)));
    }
  }

  /** The body of parseCSV's onload handler: resolves with the records, or rejects. */
  method ParseCsv(text: string) returns (r: Result<seq<Row>, ParseError>)
    ensures r == Parse(text)
  {
    var lines := NonBlank(Split(text, '\n'));
    if |lines| == 0 {
      return Err(NoHeaderLine);
    }
    var headers := TrimmedCells(lines[0]);
    var data: seq<Row> := [];
    for i := 1 to |lines|
      invariant |data| == i - 1
      invariant forall k :: 0 <= k < i - 1 ==> data[k] == RecordOf(headers, TrimmedCells(lines[k + 1]))
    {
      var values := TrimmedCells(lines[i]);
      var obj := BuildRecord(headers, values);
      data := data + [obj];
    }
    RecordsAre(data, lines, headers);
    r := Ok(data);
  }

  predicate AllWhitespace(s: string)
  {
    forall i :: 0 <= i < |s| ==> IsJsWhitespace(s[i])
  }

  lemma {:induction false} JoinAllWhitespace(parts: seq<string>, c: char)
    requires IsJsWhitespace(c)
    ensures AllWhitespace(Join(parts, c)) <==> forall i :: 0 <= i < |parts| ==> AllWhitespace(parts[i])
  {
    if |parts| > 1 {
      JoinAllWhitespace(parts[1..], c);
      var rest := Join(parts[1..], c);
      var whole := parts[0] + [c] + rest;
      if AllWhitespace(whole) {
        assert AllWhitespace(parts[0]) by {
          forall i | 0 <= i < |parts[0]| ensures IsJsWhitespace(parts[0][i]) {
            assert whole[i] == parts[0][i];
          }
        }
        assert AllWhitespace(rest) by {
          forall i | 0 <= i < |rest| ensures IsJsWhitespace(rest[i]) {
            assert whole[|parts[0]| + 1 + i] == rest[i];
          }
        }
        forall i | 0 <= i < |parts| ensures AllWhitespace(parts[i]) {
          if i > 0 {
            assert parts[1..][i - 1] == parts[i];
          }
        }
      }
      if forall i :: 0 <= i < |parts| ==> AllWhitespace(parts[i]) {
        assert forall i :: 0 <= i < |parts| - 1 ==> AllWhitespace(parts[1..][i]);
        forall i | 0 <= i < |whole| ensures IsJsWhitespace(whole[i]) {
          if i < |parts[0]| {
            assert whole[i] == parts[0][i];
          } else if i > |parts[0]| {
            assert whole[i] == rest[i - |parts[0]| - 1];
          }
        }
      }
    }
  }

  /** parseCSV rejects exactly when the text holds no character other than whitespace
      (no line survives the blank-line filter, so there is no header line). */
  lemma ParseRejectsIffBlank(text: string)
    ensures Parse(text).Err? <==> AllWhitespace(text)
  {
    var parts := Split(text, '\n');
    JoinSplit(text, '\n');
    JoinAllWhitespace(parts, '\n');
    NonBlankEmpty(parts);
    forall i | 0 <= i < |parts| ensures Trim(parts[i]) == "" <==> AllWhitespace(parts[i]) {
      TrimEmptyIffBlank(parts[i]);
    }
  }

  /** On success there is one record per non-blank line after the first; each record has the
      first line's trimmed cells as its keys, and under each key the trimmed cell at that key's
      (last) index on its own line, or '' where the line is shorter. */
  lemma ParseShape(text: string)
    requires Parse(text).Ok?
    ensures var lines := NonBlank(Split(text, '\n'));
            var headers := TrimmedCells(lines[0]);
            var recs := Parse(text).value;
            && |recs| == |lines| - 1
            && forall i :: 0 <= i < |recs| ==>
                 && Distinct(Names(recs[i]))
                 && (forall k :: k in Names(recs[i]) <==> k in headers)
                 && forall j :: 0 <= j < |headers| && LastOccurrence(headers, j, |headers|) ==>
                      Get(recs[i], headers[j]) == Str(CellAt(TrimmedCells(lines[i + 1]), j))
  {
    var lines := NonBlank(Split(text, '\n'));
    var headers := TrimmedCells(lines[0]);
    var recs := Parse(text).value;
    assert headers[..|headers|] == headers;
    forall i | 0 <= i < |recs|
      ensures Distinct(Names(recs[i]))
      ensures forall k :: k in Names(recs[i]) <==> k in headers
      ensures forall j :: 0 <= j < |headers| && LastOccurrence(headers, j, |headers|) ==>
                Get(recs[i], headers[j]) == Str(CellAt(TrimmedCells(lines[i + 1]), j))
    {
      var values := TrimmedCells(lines[i + 1]);
      assert recs[i] == RecordOf(headers, values);
      FoldKeys(headers, values, |headers|);
      forall j | 0 <= j < |headers| && LastOccurrence(headers, j, |headers|)
        ensures Get(recs[i], headers[j]) == Str(CellAt(values, j))
      {
        FoldValue(headers, values, |headers|, j);
      }
    }
  }

  // ---------------------------------------------------------------------------
  // Export and import together

  /** A string that survives export and import unchanged: no separator, no line break,
      no surrounding whitespace. */
  predicate PlainText(s: string)
  {
    ',' !in s && '\n' !in s && IsTrimmed(s)
  }

  /** Rows that all have the same keys in the same order, every value a plain string. */
  predicate PlainTable(data: seq<Row>)
  {
    && data != []
    && |data[0]| >= 1
    && Distinct(Names(data[0]))
    && (forall i :: 0 <= i < |data| ==> Names(data[i]) == Names(data[0]))
    && (forall i, j :: 0 <= i < |data| && 0 <= j < |data[i]| ==>
          PlainText(data[i][j].name) && data[i][j].name != "" &&
          data[i][j].value.Str? && PlainText(data[i][j].value.s))
    && (|data[0]| == 1 ==> forall i :: 0 <= i < |data| ==> data[i][0].value.s != "")
  }

  lemma NotBlankWhenSeparated(line: string, k: nat)
    requires k < |line| && !IsJsWhitespace(line[k])
    ensures Trim(line) != ""
  {
    TrimEmptyIffBlank(line);
  }

  lemma TrimCells(cells: seq<string>)
    requires |cells| >= 1
    requires forall j :: 0 <= j < |cells| ==> PlainText(cells[j])
    ensures TrimmedCells(Join(cells, ',')) == cells
  {
    assert NoPartContains(cells, ',');
    SplitJoin(cells, ',');
    forall j | 0 <= j < |cells| ensures Trim(cells[j]) == cells[j] {
      TrimTrimmed(cells[j]);
    }
  }

  lemma {:induction false} JoinHasSeparator(parts: seq<string>, c: char)
    requires |parts| >= 2
    ensures exists k :: 0 <= k < |Join(parts, c)| && Join(parts, c)[k] == c
  {
    assert Join(parts, c)[|parts[0]|] == c;
  }

  lemma {:induction false} NonEmptyLine(cells: seq<string>)
    requires |cells| >= 1
    requires forall j :: 0 <= j < |cells| ==> PlainText(cells[j])
    requires |cells| == 1 ==> cells[0] != ""
    ensures Trim(Join(cells, ',')) != ""
  {
    var line := Join(cells, ',');
    if |cells| >= 2 {
      JoinHasSeparator(cells, ',');
      var k :| 0 <= k < |line| && line[k] == ',';
      NotBlankWhenSeparated(line, k);
    } else {
      assert line == cells[0];
      assert !IsJsWhitespace(line[0]);
      NotBlankWhenSeparated(line, 0);
    }
  }

  /** The headers of a plain table are plain, non-empty strings. */
  lemma PlainHeaders(data: seq<Row>)
    requires PlainTable(data)
    ensures forall j :: 0 <= j < |Names(data[0])| ==> PlainText(Names(data[0])[j]) && Names(data[0])[j] != ""
  {
    var headers := Names(data[0]);
    forall j | 0 <= j < |headers| ensures PlainText(headers[j]) && headers[j] != "" {
      NameAt(data[0], j);
    }
  }

  /** Row `i`'s exported cells are its plain values, in header order. */
  lemma PlainCells(data: seq<Row>, i: nat)
    requires PlainTable(data) && i < |data|
    ensures var cells := RowCells(data[i], Names(data[0]));
            forall j :: 0 <= j < |cells| ==> PlainText(cells[j]) && cells[j] == data[i][j].value.s
  {
    var cells := RowCells(data[i], Names(data[0]));
    forall j | 0 <= j < |cells| ensures PlainText(cells[j]) && cells[j] == data[i][j].value.s {
      assert Names(data[i])[j] == Names(data[0])[j];
      NameAt(data[i], j);
      GetAt(data[i], j);
    }
  }

  /** No exported data line of a plain table is blank. */
  lemma DataLineNotBlank(data: seq<Row>, i: nat)
    requires PlainTable(data) && i < |data|
    ensures Trim(Join(RowCells(data[i], Names(data[0])), ',')) != ""
  {
    var cells := RowCells(data[i], Names(data[0]));
    PlainCells(data, i);
    assert |cells| == 1 ==> cells[0] == data[i][0].value.s;
    NonEmptyLine(cells);
  }

  /** The exported header line of a plain table is not blank. */
  lemma HeaderLineNotBlank(data: seq<Row>)
    requires PlainTable(data)
    ensures Trim(Join(Names(data[0]), ',')) != ""
  {
    PlainHeaders(data);
    NonEmptyLine(Names(data[0]));
  }

  /** `lines` are the header line and then one line per row, as exportToCSV writes them. */
  predicate ExportedAs(data: seq<Row>, lines: seq<string>)
    requires data != []
  {
    && |lines| == |data| + 1
    && lines[0] == Join(Names(data[0]), ',')
    && forall i :: 0 <= i < |data| ==> lines[i + 1] == Join(RowCells(data[i], Names(data[0])), ',')
  }

  /** No exported line of a plain table is blank. */
  lemma ExportedLinesNotBlank(data: seq<Row>, lines: seq<string>)
    requires PlainTable(data) && ExportedAs(data, lines)
    ensures forall i :: 0 <= i < |lines| ==> Trim(lines[i]) != ""
  {
    forall i | 0 <= i < |lines| ensures Trim(lines[i]) != "" {
      ExportedLineNotBlank(data, lines, i);
    }
  }

  lemma ExportedLineNotBlank(data: seq<Row>, lines: seq<string>, i: nat)
    requires PlainTable(data) && ExportedAs(data, lines) && i < |lines|
    ensures Trim(lines[i]) != ""
  {
    if i == 0 {
      HeaderLineNotBlank(data);
    } else {
      assert lines[i] == Join(RowCells(data[i - 1], Names(data[0])), ',');
      DataLineNotBlank(data, i - 1);
    }
  }

  /** Row `i`'s exported line reads back as row `i`. */
  lemma LineRoundTrip(data: seq<Row>, i: nat)
    requires PlainTable(data) && i < |data|
    ensures var headers := Names(data[0]);
            RecordOf(headers, TrimmedCells(Join(RowCells(data[i], headers), ','))) == data[i]
  {
    var headers := Names(data[0]);
    var cells := RowCells(data[i], headers);
    PlainCells(data, i);
    TrimCells(cells);
    PlainHeaders(data);
    FoldDistinct(headers, cells, |headers|);
    var rec := RecordOf(headers, cells);
    assert |rec| == |data[i]|;
    forall j | 0 <= j < |headers| ensures rec[j] == data[i][j] {
      var f := data[i][j];
      NameAt(data[i], j);
      assert headers[j] == Names(data[i])[j] == f.name;
      assert CellAt(cells, j) == cells[j] == f.value.s;
      assert rec[j] == Field(headers[j], Str(CellAt(cells, j)));
    }
  }

  /** The exported lines of a plain table read back as the table. */
  lemma LineAt(data: seq<Row>, lines: seq<string>, i: nat)
    requires PlainTable(data) && ExportedAs(data, lines) && i < |data|
    ensures RecordOf(Names(data[0]), TrimmedCells(lines[i + 1])) == data[i]
  {
    LineRoundTrip(data, i);
  }

  lemma AllLinesReadBack(data: seq<Row>, lines: seq<string>)
    requires PlainTable(data) && ExportedAs(data, lines)
    ensures forall i :: 0 <= i < |data| ==> RecordOf(Names(data[0]), TrimmedCells(lines[i + 1])) == data[i]
  {
    forall i | 0 <= i < |data| ensures RecordOf(Names(data[0]), TrimmedCells(lines[i + 1])) == data[i] {
      LineAt(data, lines, i);
    }
  }

  /** Records read one by one make up the table. */
  lemma RecordsAre(data: seq<Row>, lines: seq<string>, headers: seq<string>)
    requires |lines| == |data| + 1
    requires forall i :: 0 <= i < |data| ==> RecordOf(headers, TrimmedCells(lines[i + 1])) == data[i]
    ensures seq(|lines| - 1, k requires 0 <= k < |lines| - 1 => RecordOf(headers, TrimmedCells(lines[k + 1]))) == data
  {
    var recs := seq(|lines| - 1, k requires 0 <= k < |lines| - 1 => RecordOf(headers, TrimmedCells(lines[k + 1])));
    assert forall i :: 0 <= i < |data| ==> recs[i] == data[i];
  }

  lemma ExportedLinesParse(data: seq<Row>, lines: seq<string>)
    requires PlainTable(data) && ExportedAs(data, lines)
    ensures var headers := TrimmedCells(lines[0]);
            seq(|lines| - 1, k requires 0 <= k < |lines| - 1 => RecordOf(headers, TrimmedCells(lines[k + 1]))) == data
  {
    PlainHeaders(data);
    TrimCells(Names(data[0]));
    AllLinesReadBack(data, lines);
    RecordsAre(data, lines, Names(data[0]));
  }

  /** Round trip: for a table of plain strings, parseCSV gives back exactly the rows that exportToCSV wrote. */
  lemma ExportThenParse(data: seq<Row>)
    requires PlainTable(data)
    ensures Parse(CsvContent(data).value) == Ok(data)
  {
    assert NoLineBreaks(data);
    ExportLines(data);
    var lines := Split(CsvContent(data).value, '\n');
    assert ExportedAs(data, lines);
    ExportedLinesNotBlank(data, lines);
    NonBlankKeeps(lines);
    ExportedLinesParse(data, lines);
  }

  /** A row whose name holds a comma, and the text exportToCSV writes for it. */
  const CommaRow: Row := [Field("name", Str("A,B")), Field("code", Str("C"))]
  const CommaText: string := "name,code\n\"A,B\",C"

  lemma CommaRowCells()
    ensures RowCells(CommaRow, ["name", "code"]) == ["\"A,B\"", "C"]
  {
    assert Get(CommaRow, "name") == Str("A,B");
    assert Get(CommaRow, "code") == Str("C");
    assert Cell(Str("A,B")) == "\"A,B\"" by {
      assert "A,B"[1] == ',';
    }
  }

  /** A single row is exported as its keys' line and its cells' line. */
  lemma ExportOneRow(row: Row)
    ensures CsvContent([row]) == Some(Join([Join(Names(row), ','), Join(RowCells(row, Names(row)), ',')], '\n'))
  {
    assert DataLines([row], Names(row)) == [Join(RowCells(row, Names(row)), ',')];
  }

  lemma CommaJoins()
    ensures Join(["\"A,B\"", "C"], ',') == "\"A,B\",C"
    ensures Join(["name", "code"], ',') == "name,code"
    ensures Join(["name,code", "\"A,B\",C"], '\n') == CommaText
  {
  }

  lemma CommaExport()
    ensures CsvContent([CommaRow]) == Some(CommaText)
  {
    ExportOneRow(CommaRow);
    assert Names(CommaRow) == ["name", "code"];
    CommaRowCells();
    CommaJoins();
  }

  /** The two lines of `CommaText`. */
  const CommaParts: seq<string> := ["name,code", "\"A,B\",C"]

  lemma CommaTextSplits()
    ensures Split(CommaText, '\n') == CommaParts
  {
    assert Join(CommaParts, '\n') == CommaText;
    assert NoPartContains(CommaParts, '\n');
    SplitJoin(CommaParts, '\n');
  }

  lemma CommaLines()
    ensures NonBlank(Split(CommaText, '\n')) == CommaParts
  {
    CommaTextSplits();
    NotBlankWhenSeparated(CommaParts[0], 0);
    NotBlankWhenSeparated(CommaParts[1], 0);
    NonBlankKeeps(CommaParts);
  }

  lemma CommaHeaderSplits()
    ensures Split("name,code", ',') == ["name", "code"]
  {
    var parts := ["name", "code"];
    assert Join(parts, ',') == "name,code";
    assert NoPartContains(parts, ',');
    SplitJoin(parts, ',');
  }

  /** A line whose cells are already trimmed reads as exactly those cells. */
  lemma TrimmedCellsOf(line: string, parts: seq<string>)
    requires Split(line, ',') == parts
    requires forall i :: 0 <= i < |parts| ==> IsTrimmed(parts[i])
    ensures TrimmedCells(line) == parts
  {
    forall i | 0 <= i < |parts| ensures Trim(parts[i]) == parts[i] {
      TrimTrimmed(parts[i]);
    }
  }

  lemma CommaHeaderCells()
    ensures TrimmedCells("name,code") == ["name", "code"]
  {
    CommaHeaderSplits();
    assert IsTrimmed("name") && IsTrimmed("code");
    TrimmedCellsOf("name,code", ["name", "code"]);
  }

  lemma CommaDataSplits()
    ensures Split("\"A,B\",C", ',') == ["\"A", "B\"", "C"]
  {
    var parts := ["\"A", "B\"", "C"];
    assert Join(parts, ',') == "\"A,B\",C";
    assert NoPartContains(parts, ',');
    SplitJoin(parts, ',');
  }

  lemma CommaDataCells()
    ensures TrimmedCells("\"A,B\",C") == ["\"A", "B\"", "C"]
  {
    CommaDataSplits();
    assert IsTrimmed("\"A") && IsTrimmed("B\"") && IsTrimmed("C");
    TrimmedCellsOf("\"A,B\",C", ["\"A", "B\"", "C"]);
  }

  /** A text with one header line and one data line parses to one record. */
  lemma ParseTwoLines(text: string, header: string, line: string)
    requires NonBlank(Split(text, '\n')) == [header, line]
    ensures Parse(text) == Ok([RecordOf(TrimmedCells(header), TrimmedCells(line))])
  {
    var lines := NonBlank(Split(text, '\n'));
    var recs := seq(|lines| - 1, i requires 0 <= i < |lines| - 1 => RecordOf(TrimmedCells(lines[0]), TrimmedCells(lines[i + 1])));
    assert recs == [RecordOf(TrimmedCells(header), TrimmedCells(line))];
  }

  /** The record read from the data line: its first two cells, under the two headers. */
  lemma CommaRecord()
    ensures RecordOf(["name", "code"], ["\"A", "B\"", "C"]) == [Field("name", Str("\"A")), Field("code", Str("B\""))]
  {
    var values := ["\"A", "B\"", "C"];
    FoldDistinct(["name", "code"], values, 2);
    assert CellAt(values, 0) == "\"A" && CellAt(values, 1) == "B\"";
  }

  lemma CommaParse()
    ensures Parse(CommaText) == Ok([[Field("name", Str("\"A")), Field("code", Str("B\""))]])
  {
    CommaLines();
    CommaHeaderCells();
    CommaDataCells();
    CommaRecord();
    ParseTwoLines(CommaText, "name,code", "\"A,B\",C");
  }

  /** A value holding ',' is quoted on export but the parser ignores quotes, so the cells of that
      line no longer line up with the headers: the record read back differs from the row written. */
  lemma CommaValueDoesNotRoundTrip()
    ensures CsvContent([CommaRow]) == Some(CommaText)
    ensures Parse(CommaText) == Ok([[Field("name", Str("\"A")), Field("code", Str("B\""))]])
    ensures Parse(CommaText) != Ok([CommaRow])
  {
    CommaExport();
    CommaParse();
    assert "\"A"[0] != CommaRow[0].value.s[0];
  }

  // ===========================================================================
  // generateColor (src/utils/helpers.ts:194-201)

  /** One iteration: `hash = text.charCodeAt(i) + ((hash << 5) - hash)`. The shift works on 32 bits;
      the subtraction and addition are on Numbers, which are exact integers here. */
  function HashStep(hash: int, unit: int): int
  {
    unit + (ShiftLeft(hash, 5) - hash)
  }

  /** The value of `hash` after the loop has read the given code units. */
  function Hash(units: seq<int>): int
  {
    if units == [] then 0 else HashStep(Hash(units[..|units| - 1]), units[|units| - 1])
  }

  /** The familiar multiply-by-31 string hash, without any wrap-around. */
  function PolyHash(units: seq<int>): int
  {
    if units == [] then 0 else 31 * PolyHash(units[..|units| - 1]) + units[|units| - 1]
  }

  /** The colour text for a hue. */
  function HslColor(hue: int): string
  {
    "hsl(" + IntToString(hue) + ", 70%, 50%)"
  }

  /** `hash % 360`: below 360 in magnitude, with the sign of the hash. */
  function Hue(text: string): (hue: int)
    ensures -360 < hue < 360
    ensures Hash(Utf16(text)) >= 0 ==> hue >= 0
    ensures Hash(Utf16(text)) <= 0 ==> hue <= 0
  {
    JsRem(Hash(Utf16(text)), 360)
  }

  /** generateColor: the loop over the text's UTF-16 code units, then the hue. */
  method GenerateColor(text: string) returns (color: string)
    ensures color == HslColor(Hue(text))
  {
    var units := Utf16(text);
    var hash := 0;
    for i := 0 to |units|
      invariant hash == Hash(units[..i])
    {
      assert units[..i + 1][..i] == units[..i];
      hash := units[i] + (ShiftLeft(hash, 5) - hash);
    }
    assert units[..|units|] == units;
    var hue := JsRem(hash, 360);
    color := "hsl(" + IntToString(hue) + ", 70%, 50%)";
  }

  /** The empty text gets hue 0. */
  lemma EmptyTextColor()
    ensures HslColor(Hue("")) == "hsl(0, 70%, 50%)"
  {
  }

  /** Each iteration adds at most 2^31 + 2^16 in magnitude, so for any text shorter than
      four million code units the hash stays below 2^53, where Number arithmetic is exact. */
  lemma {:induction false} HashBound(units: seq<int>)
    requires forall i :: 0 <= i < |units| ==> 0 <= units[i] < 0x10000
    ensures -|units| * (TwoTo31 + 0x10000) <= Hash(units) <= |units| * (TwoTo31 + 0x10000)
  {
    if units != [] {
      var init := units[..|units| - 1];
      HashBound(init);
      var h := Hash(init);
      var s := ShiftLeft(h, 5);
      assert -TwoTo31 <= s < TwoTo31;
      assert Hash(units) == units[|units| - 1] + (s - h);
      assert |units| * (TwoTo31 + 0x10000) == |init| * (TwoTo31 + 0x10000) + (TwoTo31 + 0x10000);
    }
  }

  lemma HashIsExact(units: seq<int>)
    requires forall i :: 0 <= i < |units| ==> 0 <= units[i] < 0x10000
    requires |units| <= 4_000_000
    ensures -0x20_0000_0000_0000 < Hash(units) < 0x20_0000_0000_0000
  {
    HashBound(units);
    assert |units| * (TwoTo31 + 0x10000) <= 4_000_000 * (TwoTo31 + 0x10000);
  }

  /** Multiples of 2^32 stay multiples under the combination one hash step makes of them. */
  lemma MultiplesCombine(a: int, b: int, c: int)
    requires a % TwoTo32 == 0 && b % TwoTo32 == 0 && c % TwoTo32 == 0
    ensures (a + 32 * b + 31 * c) % TwoTo32 == 0
  {
    var qa, qb, qc := a / TwoTo32, b / TwoTo32, c / TwoTo32;
    assert a == TwoTo32 * qa && b == TwoTo32 * qb && c == TwoTo32 * qc;
    var q := qa + 32 * qb + 31 * qc;
    assert a + 32 * b + 31 * c == TwoTo32 * q;
  }

  /** One step keeps the two hashes congruent modulo 2^32. */
  lemma StepCongruent(h: int, p: int, unit: int)
    requires (h - p) % TwoTo32 == 0
    ensures (HashStep(h, unit) - (31 * p + unit)) % TwoTo32 == 0
  {
    var t := ToInt32(h);
    var s := ShiftLeft(h, 5);
    assert Pow2(5) == 32;
    assert s == ToInt32(t * 32);
    // HashStep(h, unit) - (31 p + unit) = (s - 32 t) + 32 (t - h) + 31 (h - p)
    MultiplesCombine(s - t * 32, t - h, h - p);
    assert HashStep(h, unit) - (31 * p + unit) == (s - t * 32) + 32 * (t - h) + 31 * (h - p);
  }

  /** Taken to 32 bits, the hash is the multiply-by-31 hash: `(h << 5) - h` is `31 * h` modulo 2^32. */
  lemma {:induction false} HashIsPolyHashModulo32(units: seq<int>)
    ensures (Hash(units) - PolyHash(units)) % TwoTo32 == 0
  {
    if units != [] {
      var init := units[..|units| - 1];
      HashIsPolyHashModulo32(init);
      StepCongruent(Hash(init), PolyHash(init), units[|units| - 1]);
    }
  }
}
