/**
  * The dashboard's layout: grouping services by category on the server and in the page,
  * collecting the arrangement on screen, and getting the same arrangement back after saving.
  */
module Layout {
  import opened Basics
  import opened UserConfig
  import opened ConfigEdits

  datatype Group<T> = Group(category: string, members: seq<T>)

  /** The label for services without a category. */
  const DEFAULT_CATEGORY := "\U{672A}\U{5206}\U{7C7B}"

  function CategoryOf(s: Service): string {
    if s.category == "" then DEFAULT_CATEGORY else s.category
  }

  // ---------------------------------------------------------------- the stable sort

  predicate Ordered(ss: seq<Service>) {
    forall i, j :: 0 <= i < j < |ss| ==> ss[i].order <= ss[j].order
  }

  /** Behind everything of the same or a smaller order. */
  function Insert(sorted: seq<Service>, s: Service): (r: seq<Service>)
    ensures |r| == |sorted| + 1
  {
    if sorted == [] || sorted[|sorted| - 1].order <= s.order then sorted + [s]
    else Insert(sorted[..|sorted| - 1], s) + [sorted[|sorted| - 1]]
  }

  function StableSort(ss: seq<Service>): (r: seq<Service>)
    ensures |r| == |ss|
  {
    if ss == [] then [] else Insert(StableSort(ss[..|ss| - 1]), ss[|ss| - 1])
  }

  lemma InsertLast(sorted: seq<Service>, s: Service)
    requires forall t :: t in sorted ==> t.order <= s.order
    ensures Insert(sorted, s) == sorted + [s]
  {
  }

  lemma InsertBefore(sorted: seq<Service>, last: Service, s: Service)
    requires last.order > s.order
    ensures Insert(sorted + [last], s) == Insert(sorted, s) + [last]
  {
    assert (sorted + [last])[..|sorted|] == sorted;
  }

  lemma {:induction false} InsertConserves(sorted: seq<Service>, s: Service)
    ensures multiset(Insert(sorted, s)) == multiset(sorted) + multiset{s}
  {
    if sorted != [] && sorted[|sorted| - 1].order > s.order {
      InsertConserves(sorted[..|sorted| - 1], s);
      assert sorted == sorted[..|sorted| - 1] + [sorted[|sorted| - 1]];
    }
  }

  lemma OrderedSnoc(ss: seq<Service>, s: Service)
    requires Ordered(ss) && forall t :: t in ss ==> t.order <= s.order
    ensures Ordered(ss + [s])
  {
  }

  lemma {:induction false} InsertSorts(sorted: seq<Service>, s: Service)
    requires Ordered(sorted)
    ensures Ordered(Insert(sorted, s))
  {
    hide Insert;
    if sorted == [] || sorted[|sorted| - 1].order <= s.order {
      InsertLast(sorted, s);
    } else {
      var init, last := sorted[..|sorted| - 1], sorted[|sorted| - 1];
      assert sorted == init + [last];
      InsertSorts(init, s);
      InsertBefore(init, last, s);
      InsertConserves(init, s);
      hide Ordered;
      forall t | t in Insert(init, s)
        ensures t.order <= last.order
      {
        assert t in multiset(Insert(init, s));
      }
      OrderedSnoc(Insert(init, s), last);
    }
  }

  lemma {:induction false} SortSorts(ss: seq<Service>)
    ensures Ordered(StableSort(ss)) && multiset(StableSort(ss)) == multiset(ss)
  {
    if ss != [] {
      SortSorts(ss[..|ss| - 1]);
      InsertSorts(StableSort(ss[..|ss| - 1]), ss[|ss| - 1]);
      InsertConserves(StableSort(ss[..|ss| - 1]), ss[|ss| - 1]);
      assert ss == ss[..|ss| - 1] + [ss[|ss| - 1]];
    }
  }

  function Select(ss: seq<Service>, f: Service -> bool): seq<Service> {
    if ss == [] then []
    else Select(ss[..|ss| - 1], f) + if f(ss[|ss| - 1]) then [ss[|ss| - 1]] else []
  }

  lemma {:induction false} SelectMembers(ss: seq<Service>, f: Service -> bool, s: Service)
    ensures s in Select(ss, f) <==> s in ss && f(s)
  {
    if ss != [] {
      var init, last := ss[..|ss| - 1], ss[|ss| - 1];
      SelectMembers(init, f, s);
      assert s in ss <==> s in init || s == last;
    }
  }

  lemma {:induction false} SelectConcat(a: seq<Service>, b: seq<Service>, f: Service -> bool)
    ensures Select(a + b, f) == Select(a, f) + Select(b, f)
  {
    if b == [] {
      assert a + b == a;
    } else {
      SelectConcat(a, b[..|b| - 1], f);
      assert (a + b)[..|a + b| - 1] == a + b[..|b| - 1];
    }
  }

  lemma SelectOne(s: Service, f: Service -> bool)
    ensures Select([s], f) == if f(s) then [s] else []
  {
    assert [s][..0] == [];
  }

  lemma SelectSnoc(ss: seq<Service>, s: Service, f: Service -> bool)
    ensures Select(ss + [s], f) == Select(ss, f) + if f(s) then [s] else []
  {
    SelectConcat(ss, [s], f);
    SelectOne(s, f);
  }

  lemma {:induction false} SelectInsert(sorted: seq<Service>, s: Service, f: Service -> bool)
    requires Ordered(sorted)
    ensures Select(Insert(sorted, s), f) == if f(s) then Insert(Select(sorted, f), s) else Select(sorted, f)
  {
    hide Insert, Select;
    if sorted == [] || sorted[|sorted| - 1].order <= s.order {
      InsertLast(sorted, s);
      SelectSnoc(sorted, s, f);
      forall t | t in Select(sorted, f)
        ensures t.order <= s.order
      {
        SelectMembers(sorted, f, t);
      }
      InsertLast(Select(sorted, f), s);
    } else {
      var init, last := sorted[..|sorted| - 1], sorted[|sorted| - 1];
      assert sorted == init + [last];
      SelectInsert(init, s, f);
      InsertBefore(init, last, s);
      SelectSnoc(init, last, f);
      SelectSnoc(Insert(init, s), last, f);
      assert Select(init, f) + [] == Select(init, f) && Select(Insert(init, s), f) + [] == Select(Insert(init, s), f);
      if f(last) && f(s) {
        InsertBefore(Select(init, f), last, s);
      }
    }
  }

  /** Stability in its strongest form: selecting before or after sorting is the same. */
  lemma {:induction false} SelectSorted(ss: seq<Service>, f: Service -> bool)
    ensures Select(StableSort(ss), f) == StableSort(Select(ss, f))
  {
    hide Select, Insert, StableSort;
    if ss == [] {
      SortNone();
      SelectNone(f);
    } else {
      var init, last := ss[..|ss| - 1], ss[|ss| - 1];
      assert ss == init + [last];
      SelectSorted(init, f);
      SortSorts(init);
      SelectInsert(StableSort(init), last, f);
      SelectSnoc(init, last, f);
      SortSnoc(init, last);
      SortSnoc(Select(init, f), last);
      assert Select(init, f) + [] == Select(init, f);
    }
  }

  lemma SortNone()
    ensures StableSort([]) == []
  {
  }

  lemma SelectNone(f: Service -> bool)
    ensures Select([], f) == []
  {
  }

  lemma SortSnoc(ss: seq<Service>, s: Service)
    ensures StableSort(ss + [s]) == Insert(StableSort(ss), s)
  {
    assert (ss + [s])[..|ss|] == ss;
  }

  // ---------------------------------------------------------------- grouping on the server

  /** The categories in order of first appearance. */
  function Categories(ss: seq<Service>): seq<string> {
    if ss == [] then []
    else
      var init, cat := Categories(ss[..|ss| - 1]), CategoryOf(ss[|ss| - 1]);
      if cat in init then init else init + [cat]
  }

  function InCategory(cat: string): Service -> bool {
    (s: Service) => CategoryOf(s) == cat
  }

  function Members(ss: seq<Service>, cat: string): seq<Service> {
    Select(ss, InCategory(cat))
  }

  function GroupsOf(sorted: seq<Service>): (groups: seq<Group<Service>>)
    ensures |groups| == |Categories(sorted)|
  {
    var cats := Categories(sorted);
    seq(|cats|, i requires 0 <= i < |cats| => Group(cats[i], Members(sorted, cats[i])))
  }

  function Grouped(services: seq<Service>): seq<Group<Service>> {
    GroupsOf(StableSort(services))
  }

  lemma {:induction false} CategoriesExactly(ss: seq<Service>, cat: string)
    ensures cat in Categories(ss) <==> exists s :: s in ss && CategoryOf(s) == cat
    ensures forall i, j :: 0 <= i < j < |Categories(ss)| ==> Categories(ss)[i] != Categories(ss)[j]
  {
    if ss != [] {
      var init, last := ss[..|ss| - 1], ss[|ss| - 1];
      CategoriesExactly(init, cat);
      assert forall s :: s in ss <==> s in init || s == last;
    }
  }

  /** One step of the loop over sorted services. */
  lemma OneMoreMember(ss: seq<Service>, s: Service, cat: string)
    ensures Members(ss + [s], cat) == if CategoryOf(s) == cat then Members(ss, cat) + [s] else Members(ss, cat)
    ensures Categories(ss + [s]) ==
              if CategoryOf(s) in Categories(ss) then Categories(ss) else Categories(ss) + [CategoryOf(s)]
  {
    SelectSnoc(ss, s, InCategory(cat));
    assert (ss + [s])[..|ss|] == ss;
  }

  lemma NoMembers(ss: seq<Service>, cat: string)
    requires cat !in Categories(ss)
    ensures Members(ss, cat) == []
  {
    if Members(ss, cat) != [] {
      var s := Members(ss, cat)[0];
      SelectMembers(ss, InCategory(cat), s);
      CategoriesExactly(ss, cat);
    }
  }

  /** What the code keeps while it groups: the lists by category. */
  ghost predicate Collecting(ss: seq<Service>, order: seq<string>, groups: map<string, seq<Service>>) {
    && order == Categories(ss)
    && (forall cat :: cat in groups <==> cat in order)
    && (forall cat :: cat in groups ==> groups[cat] == Members(ss, cat))
  }

  lemma CollectOneMore(ss: seq<Service>, s: Service, order: seq<string>, groups: map<string, seq<Service>>)
    requires Collecting(ss, order, groups)
    ensures var cat := CategoryOf(s);
            var so := if cat in groups then order else order + [cat];
            var sofar := if cat in groups then groups[cat] else [];
            Collecting(ss + [s], so, groups[cat := sofar + [s]])
  {
    hide Categories, Members, CategoryOf;
    var cat := CategoryOf(s);
    if cat !in groups {
      NoMembers(ss, cat);
    }
    forall c
      ensures Members(ss + [s], c) == if cat == c then Members(ss, c) + [s] else Members(ss, c)
      ensures Categories(ss + [s]) == if cat in Categories(ss) then Categories(ss) else Categories(ss) + [cat]
    {
      OneMoreMember(ss, s, c);
    }
  }

  method GroupServicesByCategory(services: seq<Service>) returns (result: seq<Group<Service>>)
    ensures result == Grouped(services)
  {
    hide StableSort, Categories, Members;
    var sorted := StableSort(services);
    var order: seq<string> := [];
    var groups: map<string, seq<Service>> := map[];
    NothingCollected();
    for i := 0 to |sorted|
      invariant Collecting(sorted[..i], order, groups)
    {
      CollectOneMore(sorted[..i], sorted[i], order, groups);
      assert sorted[..i] + [sorted[i]] == sorted[..i + 1];
      var cat := CategoryOf(sorted[i]);
      if cat !in groups {
        order := order + [cat];
        groups := groups[cat := []];
      }
      groups := groups[cat := groups[cat] + [sorted[i]]];
    }
    assert sorted[..|sorted|] == sorted;
    result := [];
    for i := 0 to |order|
      invariant |result| == i && forall j :: 0 <= j < i ==> result[j] == Group(order[j], groups[order[j]])
    {
      result := result + [Group(order[i], groups[order[i]])];
    }
  }

  lemma NothingCollected()
    ensures Collecting([], [], map[])
  {
  }

  function Flattened(groups: seq<Group<Service>>): multiset<Service> {
    if groups == [] then multiset{} else Flattened(groups[..|groups| - 1]) + multiset(groups[|groups| - 1].members)
  }

  /** All services of the listed categories. */
  function MembersOf(ss: seq<Service>, cats: seq<string>): multiset<Service> {
    if cats == [] then multiset{} else MembersOf(ss, cats[..|cats| - 1]) + multiset(Members(ss, cats[|cats| - 1]))
  }

  lemma {:induction false} FlattenedMembers(groups: seq<Group<Service>>, ss: seq<Service>, cats: seq<string>)
    requires |groups| == |cats|
    requires forall i :: 0 <= i < |cats| ==> groups[i] == Group(cats[i], Members(ss, cats[i]))
    ensures Flattened(groups) == MembersOf(ss, cats)
  {
    hide Members;
    if cats != [] {
      FlattenedMembers(groups[..|groups| - 1], ss, cats[..|cats| - 1]);
    }
  }

  lemma {:induction false} MembersOfSnoc(ss: seq<Service>, s: Service, cats: seq<string>)
    requires forall i, j :: 0 <= i < j < |cats| ==> cats[i] != cats[j]
    ensures MembersOf(ss + [s], cats) == MembersOf(ss, cats) + if CategoryOf(s) in cats then multiset{s} else multiset{}
  {
    hide Members, Categories, CategoryOf;
    if cats != [] {
      var init, last := cats[..|cats| - 1], cats[|cats| - 1];
      MembersOfSnoc(ss, s, init);
      OneMoreMember(ss, s, last);
      assert cats == init + [last];
    }
  }

  lemma {:induction false} MembersOfAll(ss: seq<Service>, cats: seq<string>)
    requires forall i, j :: 0 <= i < j < |cats| ==> cats[i] != cats[j]
    requires forall s :: s in ss ==> CategoryOf(s) in cats
    ensures MembersOf(ss, cats) == multiset(ss)
  {
    hide CategoryOf;
    if ss == [] {
      NoneAnywhere(cats);
    } else {
      var init, last := ss[..|ss| - 1], ss[|ss| - 1];
      assert ss == init + [last];
      MembersOfAll(init, cats);
      MembersOfSnoc(init, last, cats);
    }
  }

  lemma {:induction false} NoneAnywhere(cats: seq<string>)
    ensures MembersOf([], cats) == multiset{}
  {
    if cats != [] {
      NoneAnywhere(cats[..|cats| - 1]);
    }
  }

  /** Grouping conserves the services: none lost, none added, none shown twice. */
  lemma GroupingConserves(services: seq<Service>)
    ensures Flattened(Grouped(services)) == multiset(services)
  {
    var sorted := StableSort(services);
    var cats := Categories(sorted);
    SortSorts(services);
    FlattenedMembers(Grouped(services), sorted, cats);
    hide Categories, StableSort, MembersOf, CategoryOf;
    forall s | s in sorted
      ensures CategoryOf(s) in cats
    {
      CategoriesExactly(sorted, CategoryOf(s));
    }
    CategoriesExactly(sorted, "");
    MembersOfAll(sorted, cats);
  }

  /**
    * Each group is nonempty, has a category of its own, and holds exactly the services of
    * that category, by order and, where orders are equal, as they stand in the file.
    */
  lemma EachGroup(services: seq<Service>, i: nat)
    requires i < |Grouped(services)|
    ensures var g := Grouped(services)[i];
            && g.members != []
            && g.members == StableSort(Members(services, g.category))
            && forall j :: 0 <= j < |Grouped(services)| && j != i ==> Grouped(services)[j].category != g.category
  {
    var sorted := StableSort(services);
    var cat := Grouped(services)[i].category;
    SelectSorted(services, InCategory(cat));
    CategoriesExactly(sorted, cat);
    assert cat in Categories(sorted);
    var s :| s in sorted && CategoryOf(s) == cat;
    SelectMembers(sorted, InCategory(cat), s);
    hide Categories, StableSort, Select, CategoryOf;
  }

  // ---------------------------------------------------------------- grouping in the page

  /** The names every JavaScript object inherits from Object.prototype. */
  const INHERITED: set<string> := {
    "constructor", "hasOwnProperty", "isPrototypeOf", "propertyIsEnumerable", "toLocaleString", "toString",
    "valueOf", "__proto__", "__defineGetter__", "__defineSetter__", "__lookupGetter__", "__lookupSetter__"}

  predicate IsInherited(name: string) {
    name in INHERITED
  }

  predicate SomeInherited(services: seq<Service>) {
    exists s :: s in services && IsInherited(CategoryOf(s))
  }

  /**
    * The page collects its groups in a plain object: an inherited name counts as already
    * seen, and pushing onto what it names throws.  Otherwise the page groups exactly as the
    * server does.
    */
  method GroupServices(services: seq<Service>) returns (r: Result<seq<Group<Service>>>)
    ensures r.Err? <==> SomeInherited(services)
    ensures r.Ok? ==> r.value == Grouped(services)
  {
    SortSorts(services);
    hide StableSort, Categories, Members, CategoryOf, IsInherited;
    var sorted := StableSort(services);
    SameMembers(services, sorted);
    var order: seq<string> := [];
    var groups: map<string, seq<Service>> := map[];
    NothingCollected();
    for i := 0 to |sorted|
      invariant Collecting(sorted[..i], order, groups)
      invariant forall s :: s in sorted[..i] ==> !IsInherited(CategoryOf(s))
    {
      CollectOneMore(sorted[..i], sorted[i], order, groups);
      assert sorted[..i] + [sorted[i]] == sorted[..i + 1];
      var cat := CategoryOf(sorted[i]);
      if IsInherited(cat) {
        assert sorted[i] in sorted;
        return Err;
      }
      if cat !in groups {
        groups := groups[cat := []];
        order := order + [cat];
      }
      groups := groups[cat := groups[cat] + [sorted[i]]];
    }
    assert sorted[..|sorted|] == sorted;
    r := Ok(seq(|order|, i requires 0 <= i < |order| => Group(order[i], groups[order[i]])));
  }

  /** The page throws exactly when some category, as stored, is an inherited name: the label for none is not. */
  lemma ThrowsIff(services: seq<Service>)
    ensures SomeInherited(services) <==> exists s :: s in services && s.category in INHERITED
  {
    hide INHERITED;
    LabelIsNotInherited();
  }

  lemma LabelIsNotInherited()
    ensures "" !in INHERITED && DEFAULT_CATEGORY !in INHERITED
  {
  }

  lemma SameMembers(a: seq<Service>, b: seq<Service>)
    requires multiset(a) == multiset(b)
    ensures forall s :: s in a <==> s in b
  {
    assert forall s :: s in a <==> s in multiset(a);
    assert forall s :: s in b <==> s in multiset(b);
  }

  // ---------------------------------------------------------------- collecting what is on screen

  function Normalized(cat: string): string {
    if cat == "" || cat == DEFAULT_CATEGORY then "" else cat
  }

  /** The items of one block, numbered from `start`. */
  function BlockItems(block: Group<string>, start: int): (items: seq<Item>)
    ensures |items| == |block.members|
  {
    seq(|block.members|, i requires 0 <= i < |block.members| =>
      Item(block.members[i], start + i, Normalized(block.category)))
  }

  function Collected(screen: seq<Group<string>>): seq<Item> {
    if screen == [] then []
    else
      var before := Collected(screen[..|screen| - 1]);
      before + BlockItems(screen[|screen| - 1], |before|)
  }

  method CollectLayoutItems(screen: seq<Group<string>>) returns (items: seq<Item>)
    ensures items == Collected(screen)
  {
    items := [];
    var order := 0;
    for b := 0 to |screen|
      invariant items == Collected(screen[..b]) && order == |items|
    {
      assert screen[..b + 1][..b] == screen[..b];
      ghost var before := items;
      var block := screen[b];
      var category := Normalized(block.category);
      for i := 0 to |block.members|
        invariant items == before + BlockItems(block, |before|)[..i] && order == |items|
      {
        items := items + [Item(block.members[i], order, category)];
        order := order + 1;
      }
      assert BlockItems(block, |before|)[..|block.members|] == BlockItems(block, |before|);
    }
    assert screen[..|screen|] == screen;
  }

  // ---------------------------------------------------------------- the round trip

  function ServiceOf(services: seq<Service>, id: string): Service
    requires HasId(services, id)
  {
    var i := IndexOf(services, id);
    assert i < |services|;
    services[i]
  }

  predicate AllKnown(services: seq<Service>, items: seq<Item>) {
    forall it :: it in items ==> HasId(services, it.id)
  }

  /** The services as the items arrange them. */
  function LaidOut(services: seq<Service>, items: seq<Item>): (r: seq<Service>)
    requires AllKnown(services, items)
    ensures |r| == |items|
    ensures forall k :: 0 <= k < |r| ==> r[k] == Placed(ServiceOf(services, items[k].id), Some(items[k]))
  {
    seq(|items|, k requires 0 <= k < |items| => Placed(ServiceOf(services, items[k].id), Some(items[k])))
  }

  predicate DistinctIds(services: seq<Service>) {
    forall i, j :: 0 <= i < j < |services| ==> services[i].id != services[j].id
  }

  predicate DistinctItems(items: seq<Item>) {
    forall i, j :: 0 <= i < j < |items| ==> items[i].id != items[j].id
  }

  lemma {:induction false} CollectedOrder(screen: seq<Group<string>>, k: nat)
    requires k < |Collected(screen)|
    ensures Collected(screen)[k].order == k
  {
    var before := Collected(screen[..|screen| - 1]);
    if k < |before| {
      CollectedOrder(screen[..|screen| - 1], k);
    }
  }

  /** Distinct services with the same members have the same multiset. */
  lemma {:induction false} OneOfEach(ss: seq<Service>, s: Service)
    requires DistinctIds(ss)
    ensures multiset(ss)[s] == if s in ss then 1 else 0
  {
    if ss != [] {
      var init, last := ss[..|ss| - 1], ss[|ss| - 1];
      assert ss == init + [last];
      OneOfEach(init, s);
    }
  }

  lemma SameMultiset(a: seq<Service>, b: seq<Service>)
    requires DistinctIds(a) && DistinctIds(b) && forall s :: s in a <==> s in b
    ensures multiset(a) == multiset(b)
  {
    hide DistinctIds;
    forall s
      ensures multiset(a)[s] == multiset(b)[s]
    {
      OneOfEach(a, s);
      OneOfEach(b, s);
    }
  }

  lemma LastAgrees(a: seq<Service>, b: seq<Service>)
    requires Ordered(a) && multiset(a) == multiset(b) && |a| == |b| > 0
    requires forall k :: 0 <= k < |b| ==> b[k].order == k
    ensures a[|a| - 1] == b[|b| - 1]
  {
    var n := |a| - 1;
    SameMembers(a, b);
    assert a[n] in a && b[n] in b;
    var k :| 0 <= k < |b| && b[k] == a[n];
    var m :| 0 <= m < |a| && a[m] == b[n];
    assert a[m].order <= a[n].order;
  }

  lemma OrderedInit(a: seq<Service>, n: nat)
    requires Ordered(a) && n <= |a|
    ensures Ordered(a[..n])
  {
  }

  lemma SameInit(a: seq<Service>, b: seq<Service>, s: Service)
    requires multiset(a + [s]) == multiset(b + [s])
    ensures multiset(a) == multiset(b)
  {
    assert multiset(a + [s]) - multiset{s} == multiset(a) && multiset(b + [s]) - multiset{s} == multiset(b);
  }

  /** Only one ordering is sorted when the orders are 0, 1, 2 and so on. */
  lemma {:induction false} SortedIsUnique(a: seq<Service>, b: seq<Service>)
    requires Ordered(a) && multiset(a) == multiset(b)
    requires forall k :: 0 <= k < |b| ==> b[k].order == k
    ensures a == b
    decreases |b|
  {
    hide Ordered;
    assert |a| == |multiset(a)| == |multiset(b)| == |b|;
    if b != [] {
      var n := |b| - 1;
      OrderedInit(a, n);
      LastAgrees(a, b);
      SplitLastOff(a, n);
      SplitLastOff(b, n);
      SameInit(a[..n], b[..n], a[n]);
      SortedIsUnique(a[..n], b[..n]);
    }
  }

  lemma SplitLastOff(s: seq<Service>, n: nat)
    requires |s| == n + 1
    ensures s == s[..n] + [s[n]] && multiset(s) == multiset(s[..n] + [s[n]])
  {
  }

  lemma {:induction false} ItemForIs(items: seq<Item>, k: nat)
    requires k < |items| && DistinctItems(items)
    ensures ItemFor(items, items[k].id) == Some(items[k])
  {
    if k < |items| - 1 {
      assert items[k].id != items[|items| - 1].id;
      ItemForIs(items[..|items| - 1], k);
    }
  }

  lemma ServiceOfIs(services: seq<Service>, i: nat)
    requires i < |services| && DistinctIds(services)
    ensures HasId(services, services[i].id) && ServiceOf(services, services[i].id) == services[i]
  {
    assert services[i] in services;
  }

  lemma PlacedKeepsIds(services: seq<Service>, items: seq<Item>)
    requires DistinctIds(services)
    ensures DistinctIds(PlacedAll(services, items))
  {
    hide ItemFor;
  }

  /** What the server stores is what the items lay out, in some order. */
  lemma PlacedIsLaidOut(services: seq<Service>, items: seq<Item>)
    requires DistinctIds(services) && DistinctItems(items) && ItemIds(items) == Ids(services)
    requires AllKnown(services, items)
    ensures multiset(PlacedAll(services, items)) == multiset(LaidOut(services, items))
  {
    hide Placed, ServiceOf, ItemFor;
    var a, b := PlacedAll(services, items), LaidOut(services, items);
    forall i | 0 <= i < |services|
      ensures a[i] in b
    {
      assert services[i].id in ItemIds(items);
      var k :| 0 <= k < |items| && items[k].id == services[i].id;
      ItemForIs(items, k);
      ServiceOfIs(services, i);
      assert b[k] == a[i];
    }
    forall k | 0 <= k < |items|
      ensures b[k] in a
    {
      assert items[k].id in Ids(services);
      var i :| 0 <= i < |services| && services[i].id == items[k].id;
      ItemForIs(items, k);
      ServiceOfIs(services, i);
      assert a[i] == b[k];
    }
    PlacedKeepsIds(services, items);
    LaidOutIds(services, items);
    SameMultiset(a, b);
  }

  lemma LaidOutIds(services: seq<Service>, items: seq<Item>)
    requires AllKnown(services, items)
    ensures forall k :: 0 <= k < |items| ==> LaidOut(services, items)[k].id == items[k].id
    ensures forall k :: 0 <= k < |items| ==> LaidOut(services, items)[k].order == items[k].order
    ensures forall k :: 0 <= k < |items| ==> LaidOut(services, items)[k].category == items[k].category
    ensures DistinctItems(items) ==> DistinctIds(LaidOut(services, items))
  {
    forall k | 0 <= k < |items|
      ensures LaidOut(services, items)[k].id == items[k].id
    {
      assert items[k] in items && HasId(services, items[k].id);
    }
  }

  /** After saving, the sorted services are exactly those on screen, in screen order. */
  lemma SavedInScreenOrder(services: seq<Service>, screen: seq<Group<string>>)
    requires var items := Collected(screen);
             DistinctIds(services) && DistinctItems(items) && ItemIds(items) == Ids(services) && AllKnown(services, items)
    ensures StableSort(PlacedAll(services, Collected(screen))) == LaidOut(services, Collected(screen))
  {
    hide DistinctIds, DistinctItems, ItemIds, Ids, AllKnown, StableSort, Collected, Placed;
    var items := Collected(screen);
    PlacedIsLaidOut(services, items);
    SortSorts(PlacedAll(services, items));
    LaidOutIds(services, items);
    forall k | 0 <= k < |items|
      ensures LaidOut(services, items)[k].order == k
    {
      CollectedOrder(screen, k);
    }
    SortedIsUnique(StableSort(PlacedAll(services, items)), LaidOut(services, items));
  }

  function IdsOf(ss: seq<Service>): (ids: seq<string>)
    ensures |ids| == |ss|
    ensures forall i :: 0 <= i < |ids| ==> ids[i] == ss[i].id
  {
    seq(|ss|, i requires 0 <= i < |ss| => ss[i].id)
  }

  /** The blocks the dashboard renders for sorted services. */
  function Shown(sorted: seq<Service>, cats: seq<string>): (blocks: seq<Group<string>>)
    ensures |blocks| == |cats|
    ensures forall i :: 0 <= i < |cats| ==> blocks[i] == Group(cats[i], IdsOf(Members(sorted, cats[i])))
  {
    seq(|cats|, i requires 0 <= i < |cats| => Group(cats[i], IdsOf(Members(sorted, cats[i]))))
  }

  /** The blocks that have a card. */
  function NonEmpty(screen: seq<Group<string>>): seq<Group<string>> {
    if screen == [] then []
    else
      var last := screen[|screen| - 1];
      NonEmpty(screen[..|screen| - 1]) + if last.members == [] then [] else [last]
  }

  /** Blocks as the dashboard renders them: each has a category, and no two the same. */
  predicate Rendered(screen: seq<Group<string>>) {
    && (forall i :: 0 <= i < |screen| ==> screen[i].category != "")
    && (forall i, j :: 0 <= i < j < |screen| ==> screen[i].category != screen[j].category)
  }

  lemma {:induction false} CategoriesAppend(ss: seq<Service>, block: seq<Service>, cat: string)
    requires cat !in Categories(ss) && forall s :: s in block ==> CategoryOf(s) == cat
    ensures Categories(ss + block) == if block == [] then Categories(ss) else Categories(ss) + [cat]
  {
    hide CategoryOf;
    if block == [] {
      assert ss + block == ss;
    } else {
      var init := block[..|block| - 1];
      CategoriesAppend(ss, init, cat);
      assert (ss + block)[..|ss + block| - 1] == ss + init;
      assert block[|block| - 1] in block;
    }
  }

  lemma {:induction false} MembersAppend(ss: seq<Service>, block: seq<Service>, cat: string, c: string)
    requires forall s :: s in block ==> CategoryOf(s) == cat
    ensures Members(ss + block, c) == if c == cat then Members(ss, c) + block else Members(ss, c)
  {
    hide CategoryOf, Members, Categories;
    if block == [] {
      assert ss + block == ss;
    } else {
      var init, last := block[..|block| - 1], block[|block| - 1];
      MembersAppend(ss, init, cat, c);
      assert last in block && ss + block == ss + init + [last] && block == init + [last];
      OneMoreMember(ss + init, last, c);
    }
  }

  lemma {:induction false} ScreenCategories(services: seq<Service>, screen: seq<Group<string>>, cat: string)
    requires AllKnown(services, Collected(screen)) && Rendered(screen)
    requires forall i :: 0 <= i < |screen| ==> screen[i].category != cat
    ensures cat !in Categories(LaidOut(services, Collected(screen)))
  {
    hide Categories, Collected, AllKnown;
    if cat in Categories(LaidOut(services, Collected(screen))) {
      CategoriesExactly(LaidOut(services, Collected(screen)), cat);
      LaidOutIds(services, Collected(screen));
      var k :| 0 <= k < |Collected(screen)| && CategoryOf(LaidOut(services, Collected(screen))[k]) == cat;
      CollectedCategory(screen, k);
    }
  }

  lemma {:induction false} CollectedCategory(screen: seq<Group<string>>, k: nat)
    requires Rendered(screen) && k < |Collected(screen)|
    ensures exists b :: 0 <= b < |screen| && Collected(screen)[k].category == Normalized(screen[b].category)
  {
    var before := Collected(screen[..|screen| - 1]);
    if k < |before| {
      CollectedCategory(screen[..|screen| - 1], k);
      var b :| 0 <= b < |screen| - 1 && Collected(screen)[k].category == Normalized(screen[..|screen| - 1][b].category);
      assert screen[..|screen| - 1][b] == screen[b];
    }
  }

  /** The label for none is never stored. */
  lemma LabelIsNotStored(screen: seq<Group<string>>, k: nat)
    requires Rendered(screen) && k < |Collected(screen)|
    ensures Collected(screen)[k].category != DEFAULT_CATEGORY
  {
    CollectedCategory(screen, k);
  }

  /** One more block on screen is one more group, unless the block is empty. */
  lemma ShowOneMore(ss: seq<Service>, block: seq<Service>, cat: string, ids: seq<string>)
    requires cat !in Categories(ss) && (forall s :: s in block ==> CategoryOf(s) == cat) && IdsOf(block) == ids
    ensures Shown(ss + block, Categories(ss + block)) ==
              Shown(ss, Categories(ss)) + if ids == [] then [] else [Group(cat, ids)]
  {
    hide Categories, Members, CategoryOf;
    CategoriesAppend(ss, block, cat);
    NoMembers(ss, cat);
    forall c
      ensures Members(ss + block, c) == if c == cat then Members(ss, c) + block else Members(ss, c)
    {
      MembersAppend(ss, block, cat, c);
    }
    assert Members(ss, cat) + block == block;
    assert IdsOf(Members(ss + block, cat)) == ids;
  }

  lemma CollectedSnoc(screen: seq<Group<string>>)
    requires screen != []
    ensures var before := Collected(screen[..|screen| - 1]);
            Collected(screen) == before + BlockItems(screen[|screen| - 1], |before|)
  {
  }

  lemma LaidOutConcat(services: seq<Service>, a: seq<Item>, b: seq<Item>)
    requires AllKnown(services, a + b)
    ensures AllKnown(services, a) && AllKnown(services, b)
    ensures LaidOut(services, a + b) == LaidOut(services, a) + LaidOut(services, b)
  {
    hide Placed, ServiceOf, HasId;
    assert forall it :: it in a + b <==> it in a || it in b;
  }

  /** A block's services have its category and IDs. */
  lemma BlockLaidOut(services: seq<Service>, block: Group<string>, start: int)
    requires AllKnown(services, BlockItems(block, start)) && block.category != ""
    ensures var ss := LaidOut(services, BlockItems(block, start));
            IdsOf(ss) == block.members && forall s :: s in ss ==> CategoryOf(s) == block.category
  {
    hide AllKnown, Placed, ServiceOf;
    var items := BlockItems(block, start);
    LaidOutIds(services, items);
    forall k | 0 <= k < |items|
      ensures items[k].id == block.members[k] && CategoryOf(LaidOut(services, items)[k]) == block.category
    {
      assert items[k].category == Normalized(block.category);
    }
    assert IdsOf(LaidOut(services, items)) == block.members;
  }

  /** Grouping what a screen lays out gives the screen back, without its empty blocks. */
  lemma {:induction false} ScreenIsShown(services: seq<Service>, screen: seq<Group<string>>)
    requires AllKnown(services, Collected(screen)) && Rendered(screen)
    ensures var ss := LaidOut(services, Collected(screen));
            Shown(ss, Categories(ss)) == NonEmpty(screen)
  {
    hide AllKnown, Collected, Categories, Members, CategoryOf, LaidOut, BlockItems;
    if screen == [] {
      NothingShown(services);
    } else {
      var init, block := screen[..|screen| - 1], screen[|screen| - 1];
      var before := Collected(init);
      CollectedSnoc(screen);
      LaidOutConcat(services, before, BlockItems(block, |before|));
      ScreenIsShown(services, init);
      ScreenCategories(services, init, block.category);
      BlockLaidOut(services, block, |before|);
      ShowOneMore(LaidOut(services, before), LaidOut(services, BlockItems(block, |before|)), block.category, block.members);
      assert block.members == [] ==> block == Group(block.category, []);
    }
  }

  lemma NothingShown(services: seq<Service>)
    ensures Collected([]) == [] && AllKnown(services, []) && LaidOut(services, []) == []
    ensures Shown([], Categories([])) == NonEmpty([]) == []
  {
  }

  /**
    * Display and save round trip: whatever arrangement of a user's services is on screen,
    * saving it and grouping again shows the same nonempty blocks, in the same order, with
    * the same cards in the same order.
    */
  lemma LayoutRoundTrip(services: seq<Service>, screen: seq<Group<string>>)
    requires DistinctIds(services) && Rendered(screen)
    requires DistinctItems(Collected(screen)) && ItemIds(Collected(screen)) == Ids(services)
    ensures var saved := Arranged(services, Collected(screen));
            && saved.Ok?
            && Shown(StableSort(saved.value), Categories(StableSort(saved.value))) == NonEmpty(screen)
  {
    hide Collected, StableSort, Categories, Shown, NonEmpty, Rendered, PlacedAll, Ids, ItemIds;
    var items := Collected(screen);
    ManyItemIds(items);
    ManyIds(services);
    EveryIdKnown(services, items);
    SavedInScreenOrder(services, screen);
    ScreenIsShown(services, screen);
  }

  lemma EveryIdKnown(services: seq<Service>, items: seq<Item>)
    requires ItemIds(items) == Ids(services)
    ensures AllKnown(services, items)
  {
    forall it | it in items
      ensures HasId(services, it.id)
    {
      assert it.id in ItemIds(items);
    }
  }
}
