/**
 * One entry of the administration sidebar: whether it starts expanded, when it
 * is active or parent-active, when it is highlighted, what a click does, and
 * which children it shows.
 */
module SidebarNav {
  import opened Optional

  /** A navigation link: its title, target path, optional group label and
      optional children. The icon is not modelled. */
  datatype NavItem = NavItem(title: string, href: string, groupLabel: Option<string>, children: Option<seq<NavItem>>)

  /** JavaScript treats any children array as true, an empty one included. */
  predicate HasChildren(item: NavItem) {
    item.children.Some?
  }

  /** `s.startsWith(prefix)`. */
  predicate StartsWith(s: string, prefix: string) {
    |prefix| <= |s| && s[..|prefix|] == prefix
  }

  /** The initial expansion: the current path starts with the node's path. */
  predicate InitiallyExpanded(item: NavItem, currentPath: string) {
    StartsWith(currentPath, item.href)
  }

  /** The active test, written with one case for leaves and one for parents. */
  predicate IsActive(item: NavItem, currentPath: string) {
    (!HasChildren(item) && currentPath == item.href) || (HasChildren(item) && currentPath == item.href)
  }

  predicate IsParentActive(item: NavItem, currentPath: string) {
    HasChildren(item) && StartsWith(currentPath, item.href)
  }

  /** The highlight shared by the link's background and its icon. */
  predicate Highlighted(item: NavItem, currentPath: string, isSubItem: bool) {
    IsActive(item, currentPath) || (IsParentActive(item, currentPath) && !isSubItem)
  }

  /** `startsWith` is the sequence-prefix relation. */
  lemma StartsWithIsPrefix(s: string, prefix: string)
    ensures StartsWith(s, prefix) <==> prefix <= s
  {
  }

  /** The prefix test compares characters, not path segments: `/a` counts as a
      prefix of `/ab`. */
  lemma PrefixIsNotSegmentMatch(item: NavItem)
    requires item.href == "/a"
    ensures InitiallyExpanded(item, "/ab")
    ensures HasChildren(item) ==> IsParentActive(item, "/ab")
  {
    assert "/ab"[..2] == "/a";
  }

  /** Active means exactly the current path, with children or without. */
  lemma ActiveIsExactMatch(item: NavItem, currentPath: string)
    ensures IsActive(item, currentPath) <==> currentPath == item.href
  {
  }

  /** How the predicates relate: an active node starts expanded; a parent is
      parent-active exactly when it starts expanded; a leaf is never
      parent-active; a highlighted node's path is a prefix of the current path;
      a top-level parent is highlighted exactly when it starts expanded, and a
      sub-item exactly when it is active. */
  lemma PathRules(item: NavItem, currentPath: string, isSubItem: bool)
    ensures IsActive(item, currentPath) ==> InitiallyExpanded(item, currentPath)
    ensures HasChildren(item) ==> (IsParentActive(item, currentPath) <==> InitiallyExpanded(item, currentPath))
    ensures !HasChildren(item) ==> !IsParentActive(item, currentPath)
    ensures Highlighted(item, currentPath, isSubItem) ==> StartsWith(currentPath, item.href)
    ensures !isSubItem && HasChildren(item) ==>
      (Highlighted(item, currentPath, isSubItem) <==> InitiallyExpanded(item, currentPath))
    ensures isSubItem ==> (Highlighted(item, currentPath, isSubItem) <==> currentPath == item.href)
  {
    if IsActive(item, currentPath) {
      assert currentPath[..|item.href|] == item.href;
    }
  }

  /** On `/a/b` a parent at `/a` starts expanded, is parent-active and is
      highlighted, while its sibling at `/a/c` is none of these. */
  lemma SiblingExample(parent: NavItem, sibling: NavItem)
    requires parent.href == "/a" && HasChildren(parent)
    requires sibling.href == "/a/c"
    ensures InitiallyExpanded(parent, "/a/b") && IsParentActive(parent, "/a/b")
    ensures Highlighted(parent, "/a/b", false)
    ensures !InitiallyExpanded(sibling, "/a/b") && !IsActive(sibling, "/a/b")
    ensures !IsParentActive(sibling, "/a/b") && !Highlighted(sibling, "/a/b", false)
  {
    assert "/a/b"[..2] == "/a";
    assert "/a/b"[..4] != "/a/c" by { assert "/a/b"[3] != "/a/c"[3]; }
  }

  // ------------------------------------------------------------------ clicks

  /** What a click does: the expansion afterwards, whether the link goes on to
      navigate, and whether the `onClick` callback is invoked. */
  datatype ClickEffect = ClickEffect(expanded: bool, navigates: bool, callsOnClick: bool)

  /** A parent toggles and cancels navigation; a leaf navigates, keeps its
      expansion and calls `onClick` when it was given one. */
  function ClickStep(item: NavItem, hasOnClick: bool, expanded: bool): ClickEffect {
    if HasChildren(item) then ClickEffect(!expanded, false, false)
    else ClickEffect(expanded, true, hasOnClick)
  }

  /** A click navigates exactly on a leaf, flips the expansion exactly on a
      parent, and only a navigating click can call `onClick`. */
  lemma ClickRules(item: NavItem, hasOnClick: bool, expanded: bool)
    ensures var e := ClickStep(item, hasOnClick, expanded);
      && (e.navigates <==> !HasChildren(item))
      && (e.expanded != expanded <==> HasChildren(item))
      && (e.callsOnClick <==> !HasChildren(item) && hasOnClick)
  {
  }

  /** Two clicks leave the expansion as it was. */
  lemma ClickTwiceRestores(item: NavItem, hasOnClick: bool, expanded: bool)
    ensures ClickStep(item, hasOnClick, ClickStep(item, hasOnClick, expanded).expanded).expanded == expanded
  {
  }

  /** The props a rendered child is given. */
  datatype ChildProps = ChildProps(item: NavItem, currentPath: string, hasOnClick: bool, isSubItem: bool)

  /** One mounted sidebar entry. Its expansion is component state: it is set
      once on mounting and afterwards changed only by clicks. */
  class NavLink {
    const item: NavItem
    const hasOnClick: bool
    const isSubItem: bool
    var currentPath: string
    var isExpanded: bool
    /** How many times the `onClick` callback has been invoked. */
    var onClickCalls: nat

    constructor (item: NavItem, currentPath: string, hasOnClick: bool, isSubItem: bool)
      ensures this.item == item && this.currentPath == currentPath
      ensures this.hasOnClick == hasOnClick && this.isSubItem == isSubItem
      ensures isExpanded == InitiallyExpanded(item, currentPath)
      ensures onClickCalls == 0
    {
      this.item := item;
      this.currentPath := currentPath;
      this.hasOnClick := hasOnClick;
      this.isSubItem := isSubItem;
      isExpanded := StartsWith(currentPath, item.href);
      onClickCalls := 0;
    }

    /** `handleToggleExpand`. */
    method Click() returns (navigates: bool)
      modifies this`isExpanded, this`onClickCalls
      ensures var e := ClickStep(item, hasOnClick, old(isExpanded));
        && isExpanded == e.expanded
        && navigates == e.navigates
        && onClickCalls == old(onClickCalls) + (if e.callsOnClick then 1 else 0)
    {
      if HasChildren(item) {
        navigates := false;
        isExpanded := !isExpanded;
      } else {
        navigates := true;
        if hasOnClick {
          onClickCalls := onClickCalls + 1;
        }
      }
    }

    /** A new current path re-renders the entry; its expansion stays as it was. */
    method Navigated(path: string)
      modifies this`currentPath
      ensures currentPath == path && isExpanded == old(isExpanded)
    {
      currentPath := path;
    }

    predicate IsHighlighted()
      reads this
    {
      Highlighted(item, currentPath, isSubItem)
    }

    /** The children rendered below the entry: all of them, in order, while a
        parent is expanded, each as a sub-item with the same path and callback;
        none otherwise. */
    function RenderedChildren(): (r: seq<ChildProps>)
      reads this
      ensures HasChildren(item) && isExpanded ==> |r| == |item.children.value|
      ensures !(HasChildren(item) && isExpanded) ==> r == []
      ensures forall i | 0 <= i < |r| ::
        r[i] == ChildProps(item.children.value[i], currentPath, hasOnClick, true)
    {
      if HasChildren(item) && isExpanded then
        var children, path, callback := item.children.value, currentPath, hasOnClick;
        seq(|children|, i requires 0 <= i < |children| => ChildProps(children[i], path, callback, true))
      else []
    }
  }

  /** A parent entry clicked twice is expanded as before, never navigates and
      never calls `onClick`. */
  method ParentClickedTwice(link: NavLink)
    requires HasChildren(link.item)
    modifies link
    ensures link.isExpanded == old(link.isExpanded)
    ensures link.onClickCalls == old(link.onClickCalls)
  {
    var first := link.Click();
    var second := link.Click();
    assert !first && !second;
  }
}
