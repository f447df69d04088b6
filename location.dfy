/**
 * The location controller: predefined locations grouped by category in the order the
 * categories first appear, and the minimum length of a search term.
 */
module Location {
  import opened Wrappers
  import opened PhpString
  import opened Json
  import opened HttpResponse

  /** A row of the active predefined locations, as the database returns its columns. */
  datatype LocationRow = LocationRow(id: string, name: Option<string>, address: Option<string>,
                                     icon: Option<string>, category: Option<string>,
                                     latitude: Option<string>, longitude: Option<string>)

  /** A grouped entry; the coordinates keep their decimal text instead of a float. */
  datatype Entry = Entry(id: int, name: Option<string>, address: Option<string>, icon: Option<string>,
                         lat: Option<string>, lng: Option<string>)

  const OtherCategory := "otros"

  /** `$location['category'] ?: 'otros'`. */
  function CategoryOf(r: LocationRow): (c: string)
    ensures IsEmptyOpt(r.category) ==> c == OtherCategory
    ensures !IsEmptyOpt(r.category) ==> c == r.category.value
    ensures !IsEmpty(c)
  {
    if IsEmptyOpt(r.category) then OtherCategory else r.category.value
  }

  /** The entry appended for a row: id through `(int)`, coordinates from latitude and longitude. */
  function EntryOf(r: LocationRow): (e: Entry)
    ensures e.id == IntCast(r.id)
    ensures e.lat == r.latitude && e.lng == r.longitude
    ensures (e.name, e.address, e.icon) == (r.name, r.address, r.icon)
  {
    Entry(IntCast(r.id), r.name, r.address, r.icon, r.latitude, r.longitude)
  }

  /** `$groupedLocations`: its keys in insertion order, and what each key holds. */
  datatype Grouped = Grouped(order: seq<string>, groups: map<string, seq<Entry>>)

  /** One turn of the foreach: create the group on first sight, then append the entry. */
  function AddRow(g: Grouped, r: LocationRow): Grouped {
    AddEntry(g, CategoryOf(r), EntryOf(r))
  }

  /** Entry `e` filed under category `c`: a new key goes last, an existing one keeps its place. */
  function AddEntry(g: Grouped, c: string, e: Entry): Grouped {
    var order := if c in g.groups then g.order else g.order + [c];
    var current := if c in g.groups then g.groups[c] else [];
    Grouped(order, g.groups[c := current + [e]])
  }

  /**
   * Filing `e` under `c`: the group of `c` gains `e` at its end, every other group and
   * its presence stay as they were, and `c` joins the end of the keys exactly when new.
   */
  lemma AddEntryMeaning(g: Grouped, c: string, e: Entry)
    ensures var r := AddEntry(g, c, e);
            && c in r.groups && r.groups[c] == (if c in g.groups then g.groups[c] else []) + [e]
            && (forall c' :: c' != c ==> (c' in r.groups <==> c' in g.groups))
            && (forall c' :: c' != c && c' in g.groups ==> r.groups[c'] == g.groups[c'])
            && r.order == (if c in g.groups then g.order else g.order + [c])
  {
  }

  /** A row's entry lands last in its category's group, which grows by one; no other group changes. */
  lemma AddRowFiles(g: Grouped, r: LocationRow)
    ensures var a := AddRow(g, r); var c := CategoryOf(r);
            && c in a.groups && |a.groups[c]| == (if c in g.groups then |g.groups[c]| else 0) + 1
            && a.groups[c][|a.groups[c]| - 1] == EntryOf(r)
            && (forall c' :: c' != c ==> (c' in a.groups <==> c' in g.groups))
            && (forall c' :: c' != c && c' in g.groups ==> a.groups[c'] == g.groups[c'])
  {
    AddEntryMeaning(g, CategoryOf(r), EntryOf(r));
  }

  /** The grouping of `rows` processed in order. */
  function Grouping(rows: seq<LocationRow>): Grouped
    decreases |rows|
  {
    if rows == [] then Grouped([], map[])
    else AddRow(Grouping(rows[..|rows| - 1]), rows[|rows| - 1])
  }

  /** The grouping loop of getLocations. */
  method GroupLocations(rows: seq<LocationRow>) returns (order: seq<string>, groups: map<string, seq<Entry>>)
    ensures Grouped(order, groups) == Grouping(rows)
  {
    order := [];
    groups := map[];
    var i := 0;
    while i < |rows|
      invariant 0 <= i <= |rows|
      invariant Grouped(order, groups) == Grouping(rows[..i])
    {
      order, groups := AddLocation(order, groups, rows[i]);
      GroupingSnoc(rows, i);
      i := i + 1;
    }
    assert rows[..i] == rows;
  }

  /** One turn of the foreach: create the category's group on first sight, then append the entry. */
  method AddLocation(order: seq<string>, groups: map<string, seq<Entry>>, r: LocationRow)
    returns (order': seq<string>, groups': map<string, seq<Entry>>)
    ensures Grouped(order', groups') == AddRow(Grouped(order, groups), r)
  {
    var c := CategoryOf(r);
    var e := EntryOf(r);
    order', groups' := order, groups;
    if c !in groups' {
      groups' := groups'[c := []];
      order' := order' + [c];
    }
    groups' := groups'[c := groups'[c] + [e]];
    GroupStep(Grouped(order, groups), c, e, order', groups');
  }

  /** The grouping of one more row is one more step. */
  lemma GroupingSnoc(rows: seq<LocationRow>, i: nat)
    requires i < |rows|
    ensures Grouping(rows[..i + 1]) == AddRow(Grouping(rows[..i]), rows[i])
  {
    assert rows[..i + 1][..i] == rows[..i];
  }

  /** One turn of the loop body: create the key if missing, then append the entry; the same as AddEntry. */
  lemma GroupStep(before: Grouped, c: string, e: Entry, order: seq<string>, groups: map<string, seq<Entry>>)
    requires order == (if c in before.groups then before.order else before.order + [c])
    requires groups == (if c in before.groups then before.groups else before.groups[c := []])[c := (if c in before.groups then before.groups[c] else []) + [e]]
    ensures Grouped(order, groups) == AddEntry(before, c, e)
  {
    if c !in before.groups {
      assert groups == before.groups[c := [] + [e]];
    }
  }

  /** The entries of the rows in category `c`, in input order. */
  function Members(rows: seq<LocationRow>, c: string): seq<Entry>
    decreases |rows|
  {
    if rows == [] then []
    else
      var last := rows[|rows| - 1];
      Members(rows[..|rows| - 1], c) + (if CategoryOf(last) == c then [EntryOf(last)] else [])
  }

  /** No more categories than rows. */
  lemma {:induction false} GroupingBounds(rows: seq<LocationRow>)
    ensures |Grouping(rows).order| <= |rows|
    decreases |rows|
  {
    if rows != [] {
      GroupingBounds(rows[..|rows| - 1]);
      GroupingKeysStep(rows);
    }
  }

  /** A category holds no more entries than there are rows, and none when no row has it. */
  lemma {:induction false} MembersBounds(rows: seq<LocationRow>, c: string)
    ensures |Members(rows, c)| <= |rows|
    ensures !HasCategory(rows, c) ==> Members(rows, c) == []
    decreases |rows|
  {
    if rows != [] {
      var n := |rows| - 1;
      MembersBounds(rows[..n], c);
      HasCategoryLast(rows, c);
    }
  }

  /** Some row of `rows` has category `c`. */
  predicate HasCategory(rows: seq<LocationRow>, c: string) {
    exists k :: 0 <= k < |rows| && CategoryOf(rows[k]) == c
  }

  lemma HasCategoryLast(rows: seq<LocationRow>, c: string)
    requires rows != []
    ensures HasCategory(rows, c) <==> HasCategory(rows[..|rows| - 1], c) || CategoryOf(rows[|rows| - 1]) == c
  {
    var n := |rows| - 1;
    if HasCategory(rows, c) && CategoryOf(rows[n]) != c {
      var k :| 0 <= k < |rows| && CategoryOf(rows[k]) == c;
      assert rows[..n][k] == rows[k];
    }
    if HasCategory(rows[..n], c) {
      var k :| 0 <= k < n && CategoryOf(rows[..n][k]) == c;
      assert rows[k] == rows[..n][k];
    }
  }

  /**
   * What the grouping holds: a group exactly for each category some row has, listed in
   * the key order, and holding that category's entries in input order.
   */
  lemma {:induction false} GroupingContents(rows: seq<LocationRow>, c: string)
    ensures c in Grouping(rows).groups <==> HasCategory(rows, c)
    ensures c in Grouping(rows).groups <==> c in Grouping(rows).order
    ensures c in Grouping(rows).groups ==> Grouping(rows).groups[c] == Members(rows, c)
    ensures c !in Grouping(rows).groups ==> Members(rows, c) == []
    decreases |rows|
  {
    if rows != [] {
      var n := |rows| - 1;
      var pre := rows[..n];
      GroupingContents(pre, c);
      HasCategoryLast(rows, c);
      var g0 := Grouping(pre);
      var e := EntryOf(rows[n]);
      var cat := CategoryOf(rows[n]);
      assert Grouping(rows) == AddRow(g0, rows[n]);
      assert Members(rows, c) == Members(pre, c) + (if cat == c then [e] else []);
      if cat == c {
        assert Grouping(rows).groups[c] == (if c in g0.groups then g0.groups[c] else []) + [e];
      } else {
        assert Members(pre, c) + [] == Members(pre, c);
      }
    }
  }

  /** The key list never repeats a category. */
  lemma {:induction false} GroupingOrderDistinct(rows: seq<LocationRow>)
    ensures var g := Grouping(rows);
            (forall i, j :: 0 <= i < j < |g.order| ==> g.order[i] != g.order[j]) &&
            (forall i :: 0 <= i < |g.order| ==> g.order[i] in g.groups)
    decreases |rows|
  {
    if rows != [] {
      var n := |rows| - 1;
      GroupingOrderDistinct(rows[..n]);
      var before := Grouping(rows[..n]);
      var c := CategoryOf(rows[n]);
      GroupingKeysStep(rows);
      var after := Grouping(rows);
      KeysStayDistinct(before.order, before.groups.Keys, c, after.order, after.groups.Keys);
    }
  }

  /** A key list without repeats, backed by its key set, stays so when a key is added only if new. */
  lemma KeysStayDistinct(order: seq<string>, keys: set<string>, c: string, order': seq<string>, keys': set<string>)
    requires forall i, j :: 0 <= i < j < |order| ==> order[i] != order[j]
    requires forall i :: 0 <= i < |order| ==> order[i] in keys
    requires order' == (if c in keys then order else order + [c]) && keys' == keys + {c}
    ensures forall i, j :: 0 <= i < j < |order'| ==> order'[i] != order'[j]
    ensures forall i :: 0 <= i < |order'| ==> order'[i] in keys'
  {
  }

  /** The keys after one more row: its category joins the end of the list when it is new. */
  lemma GroupingKeysStep(rows: seq<LocationRow>)
    requires rows != []
    ensures var n := |rows| - 1; var c := CategoryOf(rows[n]); var before := Grouping(rows[..n]);
            && Grouping(rows).order == (if c in before.groups then before.order else before.order + [c])
            && Grouping(rows).groups.Keys == before.groups.Keys + {c}
  {
  }

  /** A key, once created, keeps its place: the keys after k rows are a prefix of the final keys. */
  lemma {:induction false} OrderOnlyGrows(rows: seq<LocationRow>, k: nat)
    requires k <= |rows|
    ensures Grouping(rows[..k]).order <= Grouping(rows).order
    decreases |rows| - k
  {
    if k == |rows| {
      assert rows[..k] == rows;
    } else {
      OrderOnlyGrows(rows, k + 1);
      var pre := rows[..k + 1];
      assert pre[..|pre| - 1] == rows[..k] && pre[|pre| - 1] == rows[k];
      var g := Grouping(rows[..k]);
      assert Grouping(pre) == AddRow(g, rows[k]);
      AddRowExtends(g, rows[k]);
    }
  }

  /** Adding a row keeps the keys already there, in their places. */
  lemma AddRowExtends(g: Grouped, r: LocationRow)
    ensures g.order <= AddRow(g, r).order
  {
  }

  /** The entries across all groups, taken in key order. */
  function Sizes(order: seq<string>, groups: map<string, seq<Entry>>): nat
    decreases |order|
  {
    if order == [] then 0
    else (if order[0] in groups then |groups[order[0]]| else 0) + Sizes(order[1..], groups)
  }

  /** Every location lands in exactly one group: the group sizes add up to the number of rows. */
  lemma {:induction false} GroupingCountsEveryRow(rows: seq<LocationRow>)
    ensures var g := Grouping(rows); Sizes(g.order, g.groups) == |rows|
    decreases |rows|
  {
    if rows != [] {
      var n := |rows| - 1;
      var before := Grouping(rows[..n]);
      var c := CategoryOf(rows[n]);
      GroupingCountsEveryRow(rows[..n]);
      GroupingOrderDistinct(rows[..n]);
      GroupingContents(rows[..n], c);
      var after := Grouping(rows);
      if c in before.groups {
        SizesAfterAdd(before.order, before.groups, c, EntryOf(rows[n]));
      } else {
        assert after == AddRow(before, rows[n]);
        assert [] + [EntryOf(rows[n])] == [EntryOf(rows[n])];
        assert after.groups == before.groups[c := [EntryOf(rows[n])]];
        SizesAppend(before.order, before.groups, c, EntryOf(rows[n]));
      }
    }
  }

  /** Appending to a group already listed adds one to the total. */
  lemma {:induction false} SizesAfterAdd(order: seq<string>, groups: map<string, seq<Entry>>, c: string, e: Entry)
    requires c in groups && c in order
    requires forall i, j :: 0 <= i < j < |order| ==> order[i] != order[j]
    ensures Sizes(order, groups[c := groups[c] + [e]]) == Sizes(order, groups) + 1
    decreases |order|
  {
    if order[0] == c {
      assert c !in order[1..];
      SizesIgnores(order[1..], groups, c, groups[c] + [e]);
    } else {
      SizesAfterAdd(order[1..], groups, c, e);
    }
  }

  /** A key that is not listed does not affect the total. */
  lemma {:induction false} SizesIgnores(order: seq<string>, groups: map<string, seq<Entry>>, c: string, v: seq<Entry>)
    requires c !in order
    ensures Sizes(order, groups[c := v]) == Sizes(order, groups)
    decreases |order|
  {
    if order != [] {
      SizesIgnores(order[1..], groups, c, v);
    }
  }

  /** Creating a new group with one entry at the end of the list adds one to the total. */
  lemma {:induction false} SizesAppend(order: seq<string>, groups: map<string, seq<Entry>>, c: string, e: Entry)
    requires c !in order && c !in groups
    ensures Sizes(order + [c], groups[c := [e]]) == Sizes(order, groups) + 1
    decreases |order|
  {
    if order == [] {
      assert Sizes([c], groups[c := [e]]) == 1 + Sizes([], groups[c := [e]]);
    } else {
      assert (order + [c])[1..] == order[1..] + [c];
      SizesAppend(order[1..], groups, c, e);
    }
  }

  /** A row without a category, or with category "0", goes to 'otros'. */
  lemma MissingCategoryIsOther(r: LocationRow)
    requires r.category.None? || r.category == Some("") || r.category == Some("0")
    ensures CategoryOf(r) == OtherCategory
  {
  }

  const ShortSearchMessage := "El término de búsqueda debe tener al menos 2 caracteres"

  /** searchLocations' guard on `$_GET['q'] ?? ''`: under 2 bytes ends with 400, before any query. */
  function SearchGuard(q: Option<string>): (r: Option<Response>)
    ensures r.Some? <==> |q.GetOr("")| < 2
    ensures r.Some? ==> r.value.code == 400 && Lookup(r.value.body, "message") == Some(JStr(ShortSearchMessage))
  {
    if |q.GetOr("")| < 2 then Some(Respond(400, ShortSearchMessage, None)) else None
  }
}
