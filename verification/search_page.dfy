/**
 * The search page (client/src/pages/Search.jsx): reading the sidebar state
 * from the URL's query parameters, writing it back, the sidebar's change
 * handler, and the "Show more" paging flag.
 *
 * A query is modelled as the ordered list of (key, value) pairs that
 * `URLSearchParams` holds; the percent-encoding of `toString()` and its
 * parsing back are not modelled.
 */
module SearchPage {
  import opened Common

  datatype Sidebar = Sidebar(
    searchTerm: string,
    kind: string,         // the `type` filter: "all", "rent" or "sale"
    parking: bool,
    furnished: bool,
    offer: bool,
    sort: string,
    order: string
  )

  const DefaultKind := "all"
  const DefaultSort := "created_at"
  const DefaultOrder := "desc"

  const Initial := Sidebar("", DefaultKind, false, false, false, DefaultSort, DefaultOrder)

  // ---------------------------------------------------------------------------
  // URLSearchParams

  type Params = seq<(string, string)>

  /** Pair `i` is the first pair with the key. */
  predicate FirstAt(p: Params, key: string, i: int) {
    0 <= i < |p| && p[i].0 == key && forall j :: 0 <= j < i ==> p[j].0 != key
  }

  /** `params.get(key)`: the value of the first pair with that key. */
  function Get(p: Params, key: string): (v: Field)
    ensures v.None? <==> forall i :: 0 <= i < |p| ==> p[i].0 != key
    ensures v.Some? ==> exists i :: FirstAt(p, key, i) && v.value == p[i].1
  {
    if p == [] then None
    else if p[0].0 == key then
      assert FirstAt(p, key, 0);
      Some(p[0].1)
    else
      var v := Get(p[1..], key);
      assert v.Some? ==> exists i :: FirstAt(p, key, i) && v.value == p[i].1 by {
        if v.Some? {
          var i :| FirstAt(p[1..], key, i) && v.value == p[1..][i].1;
          assert FirstAt(p, key, i + 1);
        }
      }
      v
  }

  /** `params.set(key, value)`: the first pair with the key takes the value, later ones go; with none, the pair is appended. */
  function Set(p: Params, key: string, value: string): (r: Params)
  {
    if Get(p, key).None? then p + [(key, value)] else Replace(p, key, value)
  }

  function Replace(p: Params, key: string, value: string): (r: Params)
    requires Get(p, key).Some?
  {
    if p[0].0 == key then [(key, value)] + Remove(p[1..], key)
    else [p[0]] + Replace(p[1..], key, value)
  }

  function Remove(p: Params, key: string): (r: Params)
    ensures Get(r, key).None?
    ensures forall k :: k != key ==> Get(r, k) == Get(p, k)
  {
    if p == [] then []
    else if p[0].0 == key then Remove(p[1..], key)
    else [p[0]] + Remove(p[1..], key)
  }

  lemma {:induction false} GetAppend(p: Params, key: string, k: string, value: string)
    ensures Get(p + [(key, value)], k) == if Get(p, k).Some? then Get(p, k) else if k == key then Some(value) else None
  {
    if p != [] {
      assert (p + [(key, value)])[1..] == p[1..] + [(key, value)];
      GetAppend(p[1..], key, k, value);
    }
  }

  lemma {:induction false} GetReplace(p: Params, key: string, value: string, k: string)
    requires Get(p, key).Some?
    ensures Get(Replace(p, key, value), k) == if k == key then Some(value) else Get(p, k)
  {
    if p[0].0 != key {
      GetReplace(p[1..], key, value, k);
    }
  }

  /** After `set`, the key reads back the value and every other key reads as before. */
  lemma GetSet(p: Params, key: string, value: string, k: string)
    ensures Get(Set(p, key, value), k) == if k == key then Some(value) else Get(p, k)
  {
    if Get(p, key).None? {
      GetAppend(p, key, k, value);
    } else {
      GetReplace(p, key, value, k);
    }
  }

  // ---------------------------------------------------------------------------
  // Reading the sidebar from the URL

  /** `String(b)` for the boolean filters. */
  function BoolText(b: bool): string {
    if b then "true" else "false"
  }

  const Keys := ["searchTerm", "type", "parking", "furnished", "offer", "sort", "order"]

  /** Some recognised parameter is present and non-empty. */
  predicate AnyParam(p: Params) {
    exists i :: 0 <= i < |Keys| && Truthy(Get(p, Keys[i]))
  }

  /** The sidebar after the URL effect: kept as it was when no parameter is set, else rebuilt with defaults. */
  function FromParams(p: Params, current: Sidebar): (s: Sidebar)
    ensures !AnyParam(p) ==> s == current
    ensures AnyParam(p) ==>
      && s.searchTerm == OrElse(Get(p, "searchTerm"), "")
      && s.kind == OrElse(Get(p, "type"), DefaultKind)
      && s.sort == OrElse(Get(p, "sort"), DefaultSort)
      && s.order == OrElse(Get(p, "order"), DefaultOrder)
    // a flag is on exactly when its parameter is the text "true"
    ensures AnyParam(p) ==>
      && (s.parking <==> Get(p, "parking") == Some("true"))
      && (s.furnished <==> Get(p, "furnished") == Some("true"))
      && (s.offer <==> Get(p, "offer") == Some("true"))
  {
    if !AnyParam(p) then current
    else Sidebar(
      OrElse(Get(p, "searchTerm"), ""),
      OrElse(Get(p, "type"), DefaultKind),
      Get(p, "parking") == Some("true"),
      Get(p, "furnished") == Some("true"),
      Get(p, "offer") == Some("true"),
      OrElse(Get(p, "sort"), DefaultSort),
      OrElse(Get(p, "order"), DefaultOrder))
  }

  // ---------------------------------------------------------------------------
  // Writing the sidebar to the URL

  /** `set` each pair in turn. */
  function SetAll(p: Params, pairs: Params): Params
    decreases |pairs|
  {
    if pairs == [] then p else SetAll(Set(p, pairs[0].0, pairs[0].1), pairs[1..])
  }

  predicate DistinctKeys(pairs: Params) {
    forall a, b :: 0 <= a < b < |pairs| ==> pairs[a].0 != pairs[b].0
  }

  /** A key none of the pairs sets reads as before. */
  lemma {:induction false} SetAllOther(p: Params, pairs: Params, k: string)
    requires forall i :: 0 <= i < |pairs| ==> pairs[i].0 != k
    ensures Get(SetAll(p, pairs), k) == Get(p, k)
    decreases |pairs|
  {
    if pairs != [] {
      GetSet(p, pairs[0].0, pairs[0].1, k);
      SetAllOther(Set(p, pairs[0].0, pairs[0].1), pairs[1..], k);
    }
  }

  /** With distinct keys, each key reads back the value it was set to. */
  lemma {:induction false} SetAllGet(p: Params, pairs: Params, i: int)
    requires DistinctKeys(pairs) && 0 <= i < |pairs|
    ensures Get(SetAll(p, pairs), pairs[i].0) == Some(pairs[i].1)
    decreases |pairs|
  {
    var q := Set(p, pairs[0].0, pairs[0].1);
    if i == 0 {
      GetSet(p, pairs[0].0, pairs[0].1, pairs[0].0);
      SetAllOther(q, pairs[1..], pairs[0].0);
    } else {
      SetAllGet(q, pairs[1..], i - 1);
    }
  }

  /** The seven keys the debounced effect sets, in order. */
  function Pairs(s: Sidebar): (pairs: Params)
    ensures |pairs| == |Keys| && forall i :: 0 <= i < |Keys| ==> pairs[i].0 == Keys[i]
  {
    [("searchTerm", s.searchTerm), ("type", s.kind), ("parking", BoolText(s.parking)),
     ("furnished", BoolText(s.furnished)), ("offer", BoolText(s.offer)),
     ("sort", s.sort), ("order", s.order)]
  }

  lemma KeysDistinct()
    ensures forall a, b :: 0 <= a < b < |Keys| ==> Keys[a] != Keys[b]
  {
    // lengths 10, 4, 7, 9, 5, 4, 5: only type/sort and offer/order share a length
    assert Keys[1][0] != Keys[5][0];
    assert Keys[4][1] != Keys[6][1];
  }

  /**
   * The query the debounced effect navigates to: the seven keys set in turn
   * on an empty query. Every key reads back the sidebar field it was set
   * from, and no other key is present.
   */
  function ToParams(s: Sidebar): (r: Params)
    ensures Get(r, "searchTerm") == Some(s.searchTerm)
    ensures Get(r, "type") == Some(s.kind)
    ensures Get(r, "parking") == Some(BoolText(s.parking))
    ensures Get(r, "furnished") == Some(BoolText(s.furnished))
    ensures Get(r, "offer") == Some(BoolText(s.offer))
    ensures Get(r, "sort") == Some(s.sort)
    ensures Get(r, "order") == Some(s.order)
    ensures forall k :: k !in Keys ==> Get(r, k).None?
  {
    var pairs := Pairs(s);
    KeysDistinct();
    assert DistinctKeys(pairs);
    SetAllGet([], pairs, 0);
    SetAllGet([], pairs, 1);
    SetAllGet([], pairs, 2);
    SetAllGet([], pairs, 3);
    SetAllGet([], pairs, 4);
    SetAllGet([], pairs, 5);
    SetAllGet([], pairs, 6);
    forall k | k !in Keys ensures Get(SetAll([], pairs), k).None? {
      SetAllOther([], pairs, k);
    }
    SetAll([], pairs)
  }

  /**
   * Writing the sidebar to the URL and reading it back gives the same
   * sidebar, provided type, sort and order are non-empty (an empty one
   * would come back as its default).
   */
  lemma RoundTrip(s: Sidebar, current: Sidebar)
    requires s.kind != "" && s.sort != "" && s.order != ""
    ensures FromParams(ToParams(s), current) == s
  {
    var p := ToParams(s);
    ToParamsIsRecognised(s);
    var r := FromParams(p, current);
    assert r.searchTerm == s.searchTerm && r.kind == s.kind;
    assert r.sort == s.sort && r.order == s.order;
    FlagRoundTrip(s.parking);
    FlagRoundTrip(s.furnished);
    FlagRoundTrip(s.offer);
  }

  /** A written query always carries a non-empty recognised parameter: `parking` is "true" or "false". */
  lemma ToParamsIsRecognised(s: Sidebar)
    ensures AnyParam(ToParams(s))
  {
    assert Keys[2] == "parking";
    assert Truthy(Get(ToParams(s), Keys[2]));
  }

  lemma FlagRoundTrip(b: bool)
    ensures (Some(BoolText(b)) == Some("true")) == b
  {
    assert "false" != "true" by { assert "false"[0] != "true"[0]; }
  }

  /** An empty type filter does not survive the trip: it comes back as "all". */
  lemma EmptyKindBecomesAll(s: Sidebar, current: Sidebar)
    requires s.kind == ""
    ensures FromParams(ToParams(s), current).kind == DefaultKind
  {
    ToParamsIsRecognised(s);
  }

  // ---------------------------------------------------------------------------
  // handleChange

  /**
   * `const [sort, order] = value.split('_')` with the two fallbacks: the
   * sort is the text before the first `_` (all of it when there is none)
   * unless that is empty, and an order other than the default needs a `_`.
   */
  function SortOrder(value: string): (r: (string, string))
    ensures r.0 != "" && r.1 != ""
    ensures r.0 == DefaultSort || ('_' !in r.0 && r.0 <= value && (|r.0| == |value| || value[|r.0|] == '_'))
    ensures r.1 == DefaultOrder || ('_' !in r.1 && '_' in value)
  {
    var parts := Split(value, '_');
    JoinSplit(value, '_');
    JoinHead(parts, '_');
    var sort := OrElse(Some(parts[0]), DefaultSort);
    var order := OrElse(if |parts| > 1 then Some(parts[1]) else None, DefaultOrder);
    (sort, order)
  }

  /** The sidebar after an input event with the given `id`, `value` and `checked`. */
  function HandleChange(s: Sidebar, id: string, value: string, checked: bool): (r: Sidebar)
    ensures id in {"all", "rent", "sale"} ==> r == s.(kind := id)
    ensures id == "searchTerm" ==> r == s.(searchTerm := value)
    ensures id == "parking" ==> r == s.(parking := checked)
    ensures id == "furnished" ==> r == s.(furnished := checked)
    ensures id == "offer" ==> r == s.(offer := checked)
    ensures id == "sort_order" ==> r == s.(sort := SortOrder(value).0, order := SortOrder(value).1)
    ensures id !in {"all", "rent", "sale", "searchTerm", "parking", "furnished", "offer", "sort_order"} ==> r == s
  {
    if id == "all" || id == "rent" || id == "sale" then s.(kind := id)
    else if id == "searchTerm" then s.(searchTerm := value)
    else if id == "parking" then s.(parking := checked)
    else if id == "furnished" then s.(furnished := checked)
    else if id == "offer" then s.(offer := checked)
    else if id == "sort_order" then
      var (sort, order) := SortOrder(value);
      s.(sort := sort, order := order)
    else s
  }

  /** "X_Y" with no `_` in X or Y selects sort X and order Y, an empty part falling back to its default. */
  lemma SortOrderSplits(x: string, y: string)
    requires '_' !in x && '_' !in y
    ensures SortOrder(x + "_" + y) == (OrElse(Some(x), DefaultSort), OrElse(Some(y), DefaultOrder))
  {
    SplitHead(x, '_', y);
    SplitNoSeparator(y, '_');
  }

  /** A value without `_` sets the sort and falls back to descending order. */
  lemma SortOnly(x: string)
    requires '_' !in x
    ensures SortOrder(x) == (OrElse(Some(x), DefaultSort), DefaultOrder)
  {
    SplitNoSeparator(x, '_');
  }

  /** A menu value "X_Y" with non-empty parts free of `_` selects sort X and order Y. */
  lemma MenuValueSelects(v: string, x: string, y: string)
    requires v == x + "_" + y
    requires x != "" && y != "" && '_' !in x && '_' !in y
    ensures SortOrder(v) == (x, y)
  {
    SortOrderSplits(x, y);
  }

  /** The values of the sort menu's four options. */
  const MenuValues := ["createdAt_desc", "createdAt_asc", "regularPrice_desc", "regularPrice_asc"]

  /** The sort and order each option's label names, in menu order. */
  const MenuChoices := [("createdAt", "desc"), ("createdAt", "asc"), ("regularPrice", "desc"), ("regularPrice", "asc")]

  /** The four options of the sort menu select what their labels say. */
  lemma MenuOptions()
    ensures forall i :: 0 <= i < |MenuValues| ==> SortOrder(MenuValues[i]) == MenuChoices[i]
  {
    forall i | 0 <= i < |MenuValues| ensures SortOrder(MenuValues[i]) == MenuChoices[i] {
      var (x, y) := MenuChoices[i];
      assert MenuValues[i] == x + "_" + y by {
        if i == 0 {
          assert MenuValues[0] == "createdAt" + "_" + "desc";
        } else if i == 1 {
          assert MenuValues[1] == "createdAt" + "_" + "asc";
        } else if i == 2 {
          assert MenuValues[2] == "regularPrice" + "_" + "desc";
        } else {
          assert MenuValues[3] == "regularPrice" + "_" + "asc";
        }
      }
      MenuValueSelects(MenuValues[i], x, y);
    }
  }

  /**
   * The menu shows `sort + "_" + order`. For the default state that is
   * "created_at_desc", which is none of the options, and no option sets the
   * default sort "created_at": once an option is picked the default cannot
   * be chosen again.
   */
  lemma DefaultMatchesNoOption()
    ensures DefaultSort + "_" + DefaultOrder !in MenuValues
    ensures forall i :: 0 <= i < |MenuValues| ==> SortOrder(MenuValues[i]).0 != DefaultSort
  {
    assert |DefaultSort + "_" + DefaultOrder| == 15;
    MenuOptions();
    forall i | 0 <= i < |MenuValues| ensures SortOrder(MenuValues[i]).0 != DefaultSort {
      assert |MenuChoices[i].0| != |DefaultSort|;
    }
  }

  // ---------------------------------------------------------------------------
  // Results and "Show more"

  const PageSize := 9

  datatype Results<T> = Results(listings: seq<T>, showMore: bool)

  /** The URL effect's fetch: its results replace the list; more than eight means there may be more. */
  function FirstPage<T>(data: seq<T>): (r: Results<T>)
    ensures r.listings == data
    ensures r.showMore <==> |data| > 8
  {
    Results(data, |data| > 8)
  }

  /** A digit character's value. */
  function DigitValue(c: char): nat
    requires IsDigit(c)
  {
    (c as int - '0' as int) as nat
  }

  /** The decimal text of a number, as `String(n)` writes it for a `nat`. */
  function DecimalText(n: nat): (t: string)
    ensures |t| >= 1
    ensures forall i :: 0 <= i < |t| ==> IsDigit(t[i])
    decreases n
  {
    if n < 10 then [('0' as int + n) as char]
    else DecimalText(n / 10) + [('0' as int + n % 10) as char]
  }

  /** Reading a string of digits as a number, most significant first. */
  function DecimalValue(t: string): nat
    requires forall i :: 0 <= i < |t| ==> IsDigit(t[i])
  {
    if t == [] then 0 else DecimalValue(t[..|t| - 1]) * 10 + DigitValue(t[|t| - 1])
  }

  /** The start index sent to the server reads back as the number it was written from. */
  lemma {:induction false} DecimalRoundTrip(n: nat)
    ensures DecimalValue(DecimalText(n)) == n
    decreases n
  {
    var t := DecimalText(n);
    if n >= 10 {
      DecimalRoundTrip(n / 10);
      assert t[..|t| - 1] == DecimalText(n / 10);
    }
  }

  /** The query `onShowMoreClick` fetches: the current one with `startIndex` set to the number of results shown. */
  function ShowMoreQuery<T>(p: Params, r: Results<T>): (q: Params)
    ensures Get(q, "startIndex") == Some(DecimalText(|r.listings|))
    ensures forall k :: k != "startIndex" ==> Get(q, k) == Get(p, k)
  {
    var q := Set(p, "startIndex", DecimalText(|r.listings|));
    forall k ensures Get(q, k) == if k == "startIndex" then Some(DecimalText(|r.listings|)) else Get(p, k) {
      GetSet(p, "startIndex", DecimalText(|r.listings|), k);
    }
    q
  }

  /** `onShowMoreClick`: results are appended; fewer than nine switches the button off. */
  function MorePage<T>(r: Results<T>, data: seq<T>): (r': Results<T>)
    ensures r'.listings == r.listings + data
    ensures r'.showMore <==> r.showMore && |data| >= PageSize
  {
    Results(r.listings + data, if |data| < PageSize then false else r.showMore)
  }

  function Flatten<T>(batches: seq<seq<T>>): seq<T> {
    if batches == [] then [] else batches[0] + Flatten(batches[1..])
  }

  /** A first fetch followed by "Show more" fetches of the given batches. */
  function Browse<T>(first: seq<T>, batches: seq<seq<T>>): Results<T>
    decreases |batches|
  {
    if batches == [] then FirstPage(first)
    else MorePage(Browse(first, batches[..|batches| - 1]), batches[|batches| - 1])
  }

  lemma {:induction false} FlattenSnoc<T>(batches: seq<seq<T>>, last: seq<T>)
    ensures Flatten(batches + [last]) == Flatten(batches) + last
  {
    if batches != [] {
      assert (batches + [last])[1..] == batches[1..] + [last];
      FlattenSnoc(batches[1..], last);
    }
  }

  /**
   * Every fetched result is kept, in the order fetched, and the button is
   * still offered exactly when the first page had more than eight results
   * and every later batch had at least nine.
   */
  lemma {:induction false} BrowseKeepsEverything<T>(first: seq<T>, batches: seq<seq<T>>)
    ensures Browse(first, batches).listings == first + Flatten(batches)
    ensures Browse(first, batches).showMore <==>
      |first| > 8 && forall i :: 0 <= i < |batches| ==> |batches[i]| >= PageSize
    decreases |batches|
  {
    if batches != [] {
      var init := batches[..|batches| - 1];
      var last := batches[|batches| - 1];
      assert batches == init + [last];
      BrowseKeepsEverything(first, init);
      FlattenSnoc(init, last);
    }
  }
}
