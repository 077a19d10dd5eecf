/**
 * The sidebar's list of links grouped by label, and the rows it renders: a
 * header for each group other than the fallback group, followed by the
 * group's links.
 */
module SidebarGroups {
  import opened Optional
  import opened SidebarNav

  /** The group of links that have no label (or an empty one). */
  const General := "General"

  /** `link.label || 'General'`. */
  function GroupOf(link: NavItem): string {
    match link.groupLabel
    case None => General
    case Some(l) => if l == "" then General else l
  }

  /** The links of group `g`, in input order. */
  function Members(links: seq<NavItem>, g: string): seq<NavItem> {
    if links == [] then []
    else
      var last := links[|links| - 1];
      Members(links[..|links| - 1], g) + (if GroupOf(last) == g then [last] else [])
  }

  /** The groups in order of their first link. */
  function GroupOrder(links: seq<NavItem>): seq<string> {
    if links == [] then []
    else
      var prev, g := GroupOrder(links[..|links| - 1]), GroupOf(links[|links| - 1]);
      if g in prev then prev else prev + [g]
  }

  /** The listed groups' links laid out one group after another. */
  function Concat(links: seq<NavItem>, order: seq<string>): seq<NavItem> {
    if order == [] then []
    else Concat(links, order[..|order| - 1]) + Members(links, order[|order| - 1])
  }

  /**
   * The `groupedLinks` reduce: one pass over the links that creates a group the
   * first time its name comes up and appends each link to its group. `order` is
   * the order in which the groups were created.
   */
  method GroupLinks(links: seq<NavItem>) returns (order: seq<string>, groups: map<string, seq<NavItem>>)
    ensures order == GroupOrder(links)
    ensures forall g :: g in groups <==> g in order
    ensures forall g | g in groups :: groups[g] == Members(links, g)
  {
    order, groups := [], map[];
    var i := 0;
    while i < |links|
      invariant 0 <= i <= |links|
      invariant order == GroupOrder(links[..i])
      invariant forall g :: g in groups <==> g in order
      invariant forall g | g in groups :: groups[g] == Members(links[..i], g)
    {
      var link := links[i];
      var g := GroupOf(link);
      if g !in groups {
        AbsentGroupIsEmpty(links[..i], g);
        groups := groups[g := []];
        order := order + [g];
      }
      groups := groups[g := groups[g] + [link]];
      assert links[..i + 1][..i] == links[..i] && links[..i + 1][i] == link;
      assert forall h :: Members(links[..i + 1], h) == Members(links[..i], h) + (if g == h then [link] else []);
      i := i + 1;
    }
    assert links[..i] == links;
  }

  // --------------------------------------------------- facts about grouping

  lemma {:induction false} AbsentGroupIsEmpty(links: seq<NavItem>, g: string)
    requires g !in GroupOrder(links)
    ensures Members(links, g) == []
  {
    if links != [] {
      AbsentGroupIsEmpty(links[..|links| - 1], g);
    }
  }

  /** Each group is created once. */
  lemma {:induction false} GroupOrderDistinct(links: seq<NavItem>)
    ensures forall i, j | 0 <= i < j < |GroupOrder(links)| :: GroupOrder(links)[i] != GroupOrder(links)[j]
  {
    if links != [] {
      GroupOrderDistinct(links[..|links| - 1]);
    }
  }

  /** A group exists iff some link belongs to it; every link belongs to exactly
      the group named by its own label. */
  lemma {:induction false} GroupMembership(links: seq<NavItem>, g: string)
    ensures g in GroupOrder(links) <==> Members(links, g) != []
    ensures forall m | m in Members(links, g) :: GroupOf(m) == g
    ensures forall i | 0 <= i < |links| && GroupOf(links[i]) == g :: links[i] in Members(links, g)
  {
    if links != [] {
      var init, last := links[..|links| - 1], links[|links| - 1];
      GroupMembership(init, g);
      forall i | 0 <= i < |links| && GroupOf(links[i]) == g
        ensures links[i] in Members(links, g)
      {
        if i < |links| - 1 {
          assert links[i] == init[i];
        }
      }
    }
  }

  /** Grouping only appends: the groups and the group order of a prefix of the
      links are prefixes of those of all the links, so links keep their input
      order inside a group and groups keep the order of their first link. */
  lemma {:induction false} GroupingOnlyAppends(links: seq<NavItem>, n: nat, g: string)
    requires n <= |links|
    ensures Members(links[..n], g) <= Members(links, g)
    ensures GroupOrder(links[..n]) <= GroupOrder(links)
  {
    if n < |links| {
      var init := links[..|links| - 1];
      assert init[..n] == links[..n];
      GroupingOnlyAppends(init, n, g);
    } else {
      assert links[..n] == links;
    }
  }

  /** Adding a link to a group that is not listed changes nothing listed. */
  lemma {:induction false} ConcatIgnoresUnlisted(links: seq<NavItem>, link: NavItem, order: seq<string>)
    requires GroupOf(link) !in order
    ensures Concat(links + [link], order) == Concat(links, order)
  {
    if order != [] {
      var init := order[..|order| - 1];
      ConcatIgnoresUnlisted(links, link, init);
      assert (links + [link])[..|links|] == links;
    }
  }

  /** In a list without repeats the last element does not occur before. */
  lemma LastNotEarlier<T>(order: seq<T>)
    requires order != []
    requires forall i, j | 0 <= i < j < |order| :: order[i] != order[j]
    ensures order[|order| - 1] !in order[..|order| - 1]
  {
    var init := order[..|order| - 1];
    forall i | 0 <= i < |init| ensures init[i] != order[|order| - 1] {
      assert init[i] == order[i];
    }
  }

  /** Adding a link to a group listed once adds that link once. */
  lemma {:induction false} ConcatAddsListedOnce(links: seq<NavItem>, link: NavItem, order: seq<string>)
    requires GroupOf(link) in order
    requires forall i, j | 0 <= i < j < |order| :: order[i] != order[j]
    ensures multiset(Concat(links + [link], order)) == multiset(Concat(links, order)) + multiset{link}
  {
    var init, last := order[..|order| - 1], order[|order| - 1];
    assert (links + [link])[..|links|] == links;
    if last == GroupOf(link) {
      LastNotEarlier(order);
      ConcatIgnoresUnlisted(links, link, init);
    } else {
      assert GroupOf(link) in init by {
        var i :| 0 <= i < |order| && order[i] == GroupOf(link);
        assert i < |order| - 1;
        assert init[i] == order[i];
      }
      ConcatAddsListedOnce(links, link, init);
    }
  }

  /** Every link lands in exactly one group: the groups, laid out in order,
      hold exactly the input links, each as often as it occurs. */
  lemma {:induction false} GroupingIsPermutation(links: seq<NavItem>)
    ensures multiset(Concat(links, GroupOrder(links))) == multiset(links)
    ensures |Concat(links, GroupOrder(links))| == |links|
  {
    if links != [] {
      var init, last := links[..|links| - 1], links[|links| - 1];
      var prev := GroupOrder(init);
      GroupingIsPermutation(init);
      GroupOrderDistinct(init);
      assert links == init + [last];
      if GroupOf(last) in prev {
        ConcatAddsListedOnce(init, last, prev);
      } else {
        ConcatIgnoresUnlisted(init, last, prev);
        AbsentGroupIsEmpty(init, GroupOf(last));
      }
    }
    assert |Concat(links, GroupOrder(links))| == |multiset(Concat(links, GroupOrder(links)))|;
  }

  // ------------------------------------------------------------ rendered rows

  /** A row of the sidebar's list: a group header or a link. */
  datatype Row = Header(text: string) | Entry(item: NavItem)

  /** One group's rows: its header unless it is the fallback group, then its links. */
  function Section(g: string, members: seq<NavItem>): seq<Row> {
    (if g != General then [Header(g)] else []) + seq(|members|, i requires 0 <= i < |members| => Entry(members[i]))
  }

  /** The rows of all groups, in group order. */
  function Rows(order: seq<string>, groups: map<string, seq<NavItem>>): seq<Row>
    requires forall g | g in order :: g in groups
  {
    if order == [] then []
    else Rows(order[..|order| - 1], groups) + Section(order[|order| - 1], groups[order[|order| - 1]])
  }

  /** The links among some rows, in row order. */
  function Entries(rows: seq<Row>): seq<NavItem> {
    if rows == [] then []
    else Entries(rows[..|rows| - 1]) + (match rows[|rows| - 1] case Entry(item) => [item] case Header(_) => [])
  }

  lemma {:induction false} EntriesAppend(a: seq<Row>, b: seq<Row>)
    ensures Entries(a + b) == Entries(a) + Entries(b)
  {
    if b == [] {
      assert a + b == a;
    } else {
      EntriesAppend(a, b[..|b| - 1]);
      assert (a + b)[..|a + b| - 1] == a + b[..|b| - 1];
      assert (a + b)[|a + b| - 1] == b[|b| - 1];
    }
  }

  lemma {:induction false} SectionEntries(g: string, members: seq<NavItem>)
    ensures Entries(Section(g, members)) == members
  {
    var links := seq(|members|, i requires 0 <= i < |members| => Entry(members[i]));
    var header: seq<Row> := if g != General then [Header(g)] else [];
    assert Entries(header) == [] by {
      if g != General {
        assert header[..0] == [];
      }
    }
    EntriesOfLinks(members);
    EntriesAppend(header, links);
  }

  lemma {:induction false} EntriesOfLinks(members: seq<NavItem>)
    ensures Entries(seq(|members|, i requires 0 <= i < |members| => Entry(members[i]))) == members
  {
    if members != [] {
      var init := members[..|members| - 1];
      EntriesOfLinks(init);
      var rows := seq(|members|, i requires 0 <= i < |members| => Entry(members[i]));
      assert rows[..|rows| - 1] == seq(|init|, i requires 0 <= i < |init| => Entry(init[i]));
    }
  }

  lemma SectionHeaders(g: string, h: string, members: seq<NavItem>)
    ensures multiset(Section(h, members))[Header(g)] == if g == h && h != General then 1 else 0
  {
    var links := seq(|members|, i requires 0 <= i < |members| => Entry(members[i]));
    assert Header(g) !in links;
    assert multiset(links)[Header(g)] == 0;
  }

  /** The header rows: one for each group other than the fallback group, and
      nothing else. */
  lemma {:induction false} RowHeaders(order: seq<string>, groups: map<string, seq<NavItem>>, g: string)
    requires forall h | h in order :: h in groups
    requires forall i, j | 0 <= i < j < |order| :: order[i] != order[j]
    ensures multiset(Rows(order, groups))[Header(g)] == if g in order && g != General then 1 else 0
  {
    if order != [] {
      var init, last := order[..|order| - 1], order[|order| - 1];
      var section := Section(last, groups[last]);
      assert Rows(order, groups) == Rows(init, groups) + section;
      PrefixDistinct(order, init);
      RowHeaders(init, groups, g);
      SectionHeaders(g, last, groups[last]);
      LastNotEarlier(order);
      InInitOrLast(order, g);
      assert multiset(Rows(order, groups))[Header(g)]
          == multiset(Rows(init, groups))[Header(g)] + multiset(section)[Header(g)];
    }
  }

  lemma InInitOrLast<T>(s: seq<T>, x: T)
    requires s != []
    ensures x in s <==> x in s[..|s| - 1] || x == s[|s| - 1]
  {
    assert s == s[..|s| - 1] + [s[|s| - 1]];
  }

  /** Dropping the last element keeps a list free of repeats. */
  lemma PrefixDistinct<T>(order: seq<T>, init: seq<T>)
    requires order != [] && init == order[..|order| - 1]
    requires forall i, j | 0 <= i < j < |order| :: order[i] != order[j]
    ensures forall i, j | 0 <= i < j < |init| :: init[i] != init[j]
  {
  }

  /** The links of the rows are the groups' links laid out in group order. */
  lemma {:induction false} RowEntries(links: seq<NavItem>, order: seq<string>, groups: map<string, seq<NavItem>>)
    requires forall g | g in order :: g in groups && groups[g] == Members(links, g)
    ensures Entries(Rows(order, groups)) == Concat(links, order)
  {
    if order != [] {
      var init, last := order[..|order| - 1], order[|order| - 1];
      RowEntries(links, init, groups);
      EntriesAppend(Rows(init, groups), Section(last, groups[last]));
      SectionEntries(last, groups[last]);
    }
  }

  /** The rendered sidebar shows every link exactly as often as it is listed,
      and a header for exactly the groups other than the fallback group. */
  method SidebarRows(links: seq<NavItem>) returns (rows: seq<Row>)
    ensures multiset(Entries(rows)) == multiset(links)
    ensures forall g :: multiset(rows)[Header(g)] == if g in GroupOrder(links) && g != General then 1 else 0
  {
    var order, groups := GroupLinks(links);
    rows := Rows(order, groups);
    RowEntries(links, order, groups);
    GroupingIsPermutation(links);
    GroupOrderDistinct(links);
    forall g ensures multiset(rows)[Header(g)] == if g in GroupOrder(links) && g != General then 1 else 0 {
      RowHeaders(order, groups, g);
    }
  }

  // --------------------------------------- the reduce over an object literal

  /** The property names every object literal inherits. */
  const InheritedNames: set<string> := {
    "constructor", "__proto__", "hasOwnProperty", "isPrototypeOf", "propertyIsEnumerable",
    "toLocaleString", "toString", "valueOf",
    "__defineGetter__", "__defineSetter__", "__lookupGetter__", "__lookupSetter__"}

  /** The reduce exactly as written, with `{}` as the accumulator. For a group
      name the accumulator inherits, `acc[groupLabel]` is a function (or the
      prototype), so no array is created and `push` throws a TypeError; the
      result is then `None`. */
  function ReduceOnObjectLiteral(links: seq<NavItem>): Option<map<string, seq<NavItem>>> {
    if links == [] then Some(map[])
    else
      match ReduceOnObjectLiteral(links[..|links| - 1])
      case None => None
      case Some(acc) =>
        var last := links[|links| - 1];
        var g := GroupOf(last);
        if g in InheritedNames then None
        else Some(acc[g := (if g in acc then acc[g] else []) + [last]])
  }

  /** The intended grouping as a dictionary from group name to its links. */
  function Grouping(links: seq<NavItem>): map<string, seq<NavItem>> {
    map g | g in GroupOrder(links) :: Members(links, g)
  }

  /** A single link labelled "constructor" makes the reduce throw, while the
      grouping it is meant to compute is one group holding that link. */
  lemma InheritedLabelThrows(link: NavItem)
    requires link.groupLabel == Some("constructor")
    ensures ReduceOnObjectLiteral([link]).None?
    ensures GroupOrder([link]) == ["constructor"] && Members([link], "constructor") == [link]
  {
    assert [link][..0] == [];
  }

  /** The reduce throws exactly when some link's group name is inherited. */
  lemma {:induction false} ReduceThrowsIffInherited(links: seq<NavItem>)
    ensures ReduceOnObjectLiteral(links).None? <==>
      exists i | 0 <= i < |links| :: GroupOf(links[i]) in InheritedNames
  {
    if links != [] {
      var init := links[..|links| - 1];
      ReduceThrowsIffInherited(init);
      if exists i | 0 <= i < |init| :: GroupOf(init[i]) in InheritedNames {
        var i :| 0 <= i < |init| && GroupOf(init[i]) in InheritedNames;
        assert links[i] == init[i];
      }
      if exists i | 0 <= i < |links| :: GroupOf(links[i]) in InheritedNames {
        var i :| 0 <= i < |links| && GroupOf(links[i]) in InheritedNames;
        if i < |links| - 1 {
          assert init[i] == links[i];
        }
      }
    }
  }

  /** Adding one link to the intended grouping appends it to its group,
      creating the group when it is new. */
  lemma GroupingStep(links: seq<NavItem>)
    requires links != []
    ensures var init, last := links[..|links| - 1], links[|links| - 1];
      var acc, g := Grouping(init), GroupOf(last);
      Grouping(links) == acc[g := (if g in acc then acc[g] else []) + [last]]
  {
    var init, last := links[..|links| - 1], links[|links| - 1];
    var acc, g := Grouping(init), GroupOf(last);
    if g !in GroupOrder(init) {
      AbsentGroupIsEmpty(init, g);
    }
    var expected := Grouping(links);
    var updated := acc[g := (if g in acc then acc[g] else []) + [last]];
    forall h ensures h in updated <==> h in expected {
      assert h in GroupOrder(links) <==> h in GroupOrder(init) || h == g;
    }
    forall h | h in updated ensures updated[h] == expected[h] {
      assert Members(links, h) == Members(init, h) + (if h == g then [last] else []);
    }
  }

  /** Without inherited names the reduce computes the intended grouping. */
  lemma {:induction false} ReduceAgreesWithGrouping(links: seq<NavItem>)
    requires forall i | 0 <= i < |links| :: GroupOf(links[i]) !in InheritedNames
    ensures ReduceOnObjectLiteral(links) == Some(Grouping(links))
  {
    if links != [] {
      var init, last := links[..|links| - 1], links[|links| - 1];
      assert forall i | 0 <= i < |init| :: init[i] == links[i];
      ReduceAgreesWithGrouping(init);
      GroupingStep(links);
      assert GroupOf(last) !in InheritedNames;
    }
  }
}
