/** Entry extraction from a README, after the markdown parser has produced its
    syntax tree: walk the tree with a LIFO worklist, keep the list items, and
    turn each into an entry from the first link under it, skipping in-page
    anchors. */
module Extractor {
  import opened Wrappers
  import opened Text
  import opened Serialize
  import opened Records

  /** A token of the parser's tree: its `type`, its optional `text` and `link`
      keys and, for a `Node`, its `children` list. */
  datatype Token =
    | Leaf(kind: string, text: Option<string>, link: Option<string>)
    | Node(kind: string, text: Option<string>, link: Option<string>, children: seq<Token>)

  function Kind(t: Token): string { t.kind }

  /** `get_children`: the token's children, or the empty list when it has none. */
  function GetChildren(t: Token): (r: seq<Token>)
    ensures t.Node? ==> r == t.children
    ensures t.Leaf? ==> r == []
    ensures forall i :: 0 <= i < |r| ==> r[i] < t
  {
    if t.Node? then t.children else []
  }

  /** The tokens `flat` yields for one token pushed on top of the worklist:
      the token, then its children's tokens, last child first. */
  function FlatTree(t: Token): seq<Token>
    decreases t, 2
  {
    [t] + FlatKids(t, |GetChildren(t)|)
  }

  /** The tokens yielded for the first `n` children of `t`. */
  function FlatKids(t: Token, n: nat): seq<Token>
    requires n <= |GetChildren(t)|
    decreases t, 1, n
  {
    if n == 0 then [] else FlatTree(GetChildren(t)[n - 1]) + FlatKids(t, n - 1)
  }

  /** The sequence `flat` yields for the worklist `ts`: the last token and its
      subtree first, then the rest. */
  function FlatOf(ts: seq<Token>): seq<Token>
  {
    if ts == [] then [] else FlatTree(ts[|ts| - 1]) + FlatOf(ts[..|ts| - 1])
  }

  lemma {:induction false} FlatKidsIsFlatOf(t: Token, n: nat)
    requires n <= |GetChildren(t)|
    ensures FlatKids(t, n) == FlatOf(GetChildren(t)[..n])
  {
    if n > 0 {
      FlatKidsIsFlatOf(t, n - 1);
      assert GetChildren(t)[..n][..n - 1] == GetChildren(t)[..n - 1];
    }
  }

  lemma {:induction false} FlatOfAppend(a: seq<Token>, b: seq<Token>)
    ensures FlatOf(a + b) == FlatOf(b) + FlatOf(a)
  {
    if b == [] {
      assert a + b == a;
    } else {
      var bi := b[..|b| - 1];
      var last := b[|b| - 1];
      assert FlatOf(a + b) == FlatTree(last) + FlatOf(a + bi) by {
        assert (a + b)[..|a + b| - 1] == a + bi;
        assert (a + b)[|a + b| - 1] == last;
      }
      assert FlatOf(a + bi) == FlatOf(bi) + FlatOf(a) by {
        FlatOfAppend(a, bi);
      }
      assert FlatOf(b) == FlatTree(last) + FlatOf(bi);
    }
  }

  /** `flat` is LIFO: it yields the last top-level token first, then that
      token's subtree, then what was below it on the worklist. */
  lemma {:induction false} FlatOfLast(ts: seq<Token>)
    requires ts != []
    ensures FlatOf(ts)[0] == ts[|ts| - 1]
    ensures FlatOf(ts) == [ts[|ts| - 1]] + FlatOf(GetChildren(ts[|ts| - 1])) + FlatOf(ts[..|ts| - 1])
  {
    var t := ts[|ts| - 1];
    FlatKidsIsFlatOf(t, |GetChildren(t)|);
    assert GetChildren(t)[..|GetChildren(t)|] == GetChildren(t);
  }

  /** One round of the worklist: the popped token, then what the new worklist
      (the rest with the token's children pushed) yields. */
  lemma {:induction false} FlatStep(queue: seq<Token>, next: seq<Token>)
    requires queue != [] && next == queue[..|queue| - 1] + GetChildren(queue[|queue| - 1])
    ensures FlatOf(queue) == [queue[|queue| - 1]] + FlatOf(next)
  {
    var init, t := queue[..|queue| - 1], queue[|queue| - 1];
    assert FlatOf(queue) == [t] + FlatOf(GetChildren(t)) + FlatOf(init) by {
      FlatOfLast(queue);
    }
    assert FlatOf(next) == FlatOf(GetChildren(t)) + FlatOf(init) by {
      FlatOfAppend(init, GetChildren(t));
    }
  }

  /** `flat`: pop the last token of the worklist, push its children, yield it. */
  method Flat(ast: seq<Token>) returns (out: seq<Token>)
    ensures out == FlatOf(ast)
  {
    var queue := ast;
    out := [];
    while queue != []
      invariant out + FlatOf(queue) == FlatOf(ast)
      decreases |FlatOf(queue)|
    {
      var item := queue[|queue| - 1];
      var next := queue[..|queue| - 1];
      if item.Node? {
        next := next + item.children;
      }
      assert FlatOf(queue) == [item] + FlatOf(next) by {
        if item.Leaf? {
          assert next + GetChildren(item) == next;
        }
        FlatStep(queue, next);
      }
      queue := next;
      out := out + [item];
    }
  }

  /** The natural depth-first order, children first to last: the reference
      enumeration of a tree's tokens. */
  function PreTree(t: Token): seq<Token>
    decreases t, 2
  {
    [t] + PreKids(t, |GetChildren(t)|)
  }

  function PreKids(t: Token, n: nat): seq<Token>
    requires n <= |GetChildren(t)|
    decreases t, 1, n
  {
    if n == 0 then [] else PreKids(t, n - 1) + PreTree(GetChildren(t)[n - 1])
  }

  function PreOrder(ts: seq<Token>): seq<Token>
  {
    if ts == [] then [] else PreOrder(ts[..|ts| - 1]) + PreTree(ts[|ts| - 1])
  }

  lemma {:induction false} FlatTreeNodes(t: Token)
    ensures multiset(FlatTree(t)) == multiset(PreTree(t))
    decreases t, 2
  {
    FlatKidsNodes(t, |GetChildren(t)|);
  }

  /** The last of the first `n` children splits off both enumerations of them. */
  lemma {:induction false} KidsSplit(t: Token, n: nat)
    requires 0 < n <= |GetChildren(t)|
    ensures multiset(FlatKids(t, n)) == multiset(FlatTree(GetChildren(t)[n - 1])) + multiset(FlatKids(t, n - 1))
    ensures multiset(PreKids(t, n)) == multiset(PreTree(GetChildren(t)[n - 1])) + multiset(PreKids(t, n - 1))
  {
  }

  lemma {:induction false} FlatKidsNodes(t: Token, n: nat)
    requires n <= |GetChildren(t)|
    ensures multiset(FlatKids(t, n)) == multiset(PreKids(t, n))
    decreases t, 1, n
  {
    if n == 0 {
      assert FlatKids(t, n) == [] == PreKids(t, n);
    } else {
      var k := GetChildren(t)[n - 1];
      var fk, pk := multiset(FlatKids(t, n - 1)), multiset(PreKids(t, n - 1));
      var ft, pt := multiset(FlatTree(k)), multiset(PreTree(k));
      assert multiset(FlatKids(t, n)) == ft + fk && multiset(PreKids(t, n)) == pt + pk by {
        KidsSplit(t, n);
      }
      assert ft == pt by {
        FlatTreeNodes(k);
      }
      assert fk == pk by {
        FlatKidsNodes(t, n - 1);
      }
    }
  }

  /** `flat` yields every token of the tree exactly as often as a depth-first
      traversal does: each node once, nothing invented, nothing lost. */
  lemma {:induction false} FlatYieldsEveryNode(ts: seq<Token>)
    ensures multiset(FlatOf(ts)) == multiset(PreOrder(ts))
    ensures |FlatOf(ts)| == |PreOrder(ts)|
  {
    if ts != [] {
      FlatYieldsEveryNode(ts[..|ts| - 1]);
      FlatTreeNodes(ts[|ts| - 1]);
    }
    assert |multiset(FlatOf(ts))| == |multiset(PreOrder(ts))|;
  }

  /** `r` is the first token of `s` with type `kind`, or None when there is none. */
  ghost predicate FirstOfKind(s: seq<Token>, kind: string, r: Option<Token>)
  {
    (r.None? <==> forall i :: 0 <= i < |s| ==> s[i].kind != kind) &&
    (r.Some? ==> exists i :: 0 <= i < |s| && s[i] == r.value && r.value.kind == kind &&
                             forall j :: 0 <= j < i ==> s[j].kind != kind)
  }

  /** `find_type_single`. */
  function FindTypeSingle(ast: seq<Token>, kind: string): Option<Token>
  {
    FindByName(FlatOf(ast), Kind, kind)
  }

  /** `find_type_single` returns the first token in `flat` order with the given type, or None. */
  lemma {:induction false} FindTypeSingleFirst(ast: seq<Token>, kind: string)
    ensures FirstOfKind(FlatOf(ast), kind, FindTypeSingle(ast, kind))
  {
    var s := FlatOf(ast);
    assert forall i :: 0 <= i < |s| ==> Kind(s[i]) == s[i].kind;
  }

  /** The `text` values of the tokens, in order, skipping tokens without one. */
  function Texts(ts: seq<Token>): (r: seq<string>)
    ensures |r| <= |ts|
    ensures (forall i :: 0 <= i < |ts| ==> ts[i].text.None?) <==> r == []
  {
    if ts == [] then []
    else (if ts[0].text.Some? then [ts[0].text.value] else []) + Texts(ts[1..])
  }

  /** `get_text`: the texts in `flat` order joined with single spaces. */
  function GetText(ast: seq<Token>): (r: string)
    ensures (forall i :: 0 <= i < |FlatOf(ast)| ==> FlatOf(ast)[i].text.None?) ==> r == ""
  {
    Join(Texts(FlatOf(ast)), " ")
  }

  /** With one text in the tree, `get_text` is that text; with a first text
      and more after it, a single space separates them. */
  lemma {:induction false} GetTextParts(ast: seq<Token>)
    ensures var ts := Texts(FlatOf(ast));
      (|ts| == 1 ==> GetText(ast) == ts[0]) &&
      (|ts| > 1 ==> GetText(ast) == ts[0] + " " + Join(ts[1..], " "))
  {
    var ts := Texts(FlatOf(ast));
    if |ts| > 1 {
      JoinCons(ts[0], ts[1..], " ");
      assert [ts[0]] + ts[1..] == ts;
    }
  }

  datatype ExtractError = MissingLinkKey

  /** The block `map_list_item` reads: the first `block_text` in the item's subtree, else the item. */
  function BlockOf(listItem: Token): Token
  {
    match FindTypeSingle([listItem], "block_text")
    case Some(b) => b
    case None => listItem
  }

  /** The link token of an item: the first `link` under its block, when the block has children. */
  function LinkOf(listItem: Token): Option<Token>
  {
    var block := BlockOf(listItem);
    if block.Leaf? then None else FindTypeSingle(block.children, "link")
  }

  /** `map_list_item`. */
  function MapListItem(listItem: Token): Result<Option<ExtractInfo>, ExtractError>
  {
    var block := BlockOf(listItem);
    if block.Leaf? then Ok(None)
    else match FindTypeSingle(GetChildren(block), "link")
      case None => Ok(None)
      case Some(linkToken) =>
        var name := GetText([linkToken]);
        match linkToken.link
        case None => Err(MissingLinkKey)
        case Some(link) =>
          if StartsWith(link, "#") then Ok(None)
          else Ok(Some(ExtractInfo(name, link, GetText([listItem]), None)))
  }

  /** An item gives no entry when its block has no children, when no link is
      under the block, or when the link is an in-page anchor; a link token
      without a `link` key raises; otherwise the entry is named by the link's
      text, points at the link and is described by the whole item's text. */
  lemma {:induction false} MapListItemCases(listItem: Token)
    ensures MapListItem(listItem).Err? <==> LinkOf(listItem).Some? && LinkOf(listItem).value.link.None?
    ensures MapListItem(listItem) == Ok(None) <==>
      LinkOf(listItem).None? ||
      (LinkOf(listItem).value.link.Some? && StartsWith(LinkOf(listItem).value.link.value, "#"))
    ensures MapListItem(listItem).Ok? && MapListItem(listItem).value.Some? ==>
      var linkToken := LinkOf(listItem).value;
      linkToken.link.Some? && !StartsWith(linkToken.link.value, "#") &&
      MapListItem(listItem).value.value ==
        ExtractInfo(GetText([linkToken]), linkToken.link.value, GetText([listItem]), None)
  {
  }

  /** `is_listitem`. */
  predicate IsListItem(t: Token) { t.kind == "list_item" }

  /** `find_list_items`: the list items in `flat` order. */
  function ListItems(ts: seq<Token>): (r: seq<Token>)
    ensures |r| <= |ts|
    ensures forall i :: 0 <= i < |r| ==> IsListItem(r[i])
  {
    if ts == [] then []
    else (if IsListItem(ts[0]) then [ts[0]] else []) + ListItems(ts[1..])
  }

  /** `map(map_list_item, items)`. */
  function MapAll(items: seq<Token>): (rs: seq<Result<Option<ExtractInfo>, ExtractError>>)
    ensures |rs| == |items| && forall i :: 0 <= i < |items| ==> rs[i] == MapListItem(items[i])
  {
    seq(|items|, i requires 0 <= i < |items| => MapListItem(items[i]))
  }

  /** The first failure of the tail, behind a head that succeeds, is the
      first failure of the whole. */
  lemma {:induction false} FirstFailureShifts(rs: seq<Result<Option<ExtractInfo>, ExtractError>>, err: ExtractError)
    requires |rs| > 0 && rs[0].Ok?
    requires exists i :: 0 <= i < |rs[1..]| && rs[1..][i] == Err(err) && forall j :: 0 <= j < i ==> rs[1..][j].Ok?
    ensures exists i :: 0 <= i < |rs| && rs[i] == Err(err) && forall j :: 0 <= j < i ==> rs[j].Ok?
  {
    var i :| 0 <= i < |rs[1..]| && rs[1..][i] == Err(err) && forall j :: 0 <= j < i ==> rs[1..][j].Ok?;
    assert rs[i + 1] == Err(err);
    forall j | 0 <= j < i + 1 ensures rs[j].Ok? {
      if j > 0 { assert rs[j] == rs[1..][j - 1]; }
    }
  }

  /** `list(filter(None, results))`: the entries in order with the Nones
      dropped; the first failure propagates. */
  function Collect(rs: seq<Result<Option<ExtractInfo>, ExtractError>>): (r: Result<seq<ExtractInfo>, ExtractError>)
    ensures r.Err? <==> exists i :: 0 <= i < |rs| && rs[i].Err?
    ensures r.Err? ==> exists i :: 0 <= i < |rs| && rs[i] == Err(r.error) && forall j :: 0 <= j < i ==> rs[j].Ok?
    ensures r.Ok? ==> |r.value| <= |rs| && forall e :: e in r.value ==> exists i :: 0 <= i < |rs| && rs[i] == Ok(Some(e))
  {
    if rs == [] then Ok([])
    else if rs[0].Err? then Err(rs[0].error)
    else
      var tail := Collect(rs[1..]);
      assert forall i :: 0 <= i < |rs| - 1 ==> rs[1..][i] == rs[i + 1];
      if tail.Err? then
        FirstFailureShifts(rs, tail.error);
        Err(tail.error)
      else
        Ok((if rs[0].value.Some? then [rs[0].value.value] else []) + tail.value)
  }

  /** Collecting a concatenation whose first part fails gives that part's
      failure. */
  lemma {:induction false} CollectAppendFirstFails(a: seq<Result<Option<ExtractInfo>, ExtractError>>, b: seq<Result<Option<ExtractInfo>, ExtractError>>)
    requires Collect(a).Err?
    ensures Collect(a + b) == Collect(a)
    decreases |a|
  {
    var ab := a + b;
    assert ab[0] == a[0];
    if a[0].Ok? {
      assert ab[1..] == a[1..] + b;
      CollectAppendFirstFails(a[1..], b);
    }
  }

  /** Collecting a concatenation whose first part succeeds and second part
      fails gives the second part's failure. */
  lemma {:induction false} CollectAppendSecondFails(a: seq<Result<Option<ExtractInfo>, ExtractError>>, b: seq<Result<Option<ExtractInfo>, ExtractError>>)
    requires Collect(a).Ok? && Collect(b).Err?
    ensures Collect(a + b) == Collect(b)
    decreases |a|
  {
    if a == [] {
      assert a + b == b;
    } else {
      var ab := a + b;
      assert ab[0] == a[0];
      assert ab[1..] == a[1..] + b;
      CollectAppendSecondFails(a[1..], b);
    }
  }

  /** Collecting a concatenation of two parts that succeed gives the entries of
      the first part followed by those of the second. */
  lemma {:induction false} CollectAppend(a: seq<Result<Option<ExtractInfo>, ExtractError>>, b: seq<Result<Option<ExtractInfo>, ExtractError>>)
    requires Collect(a).Ok? && Collect(b).Ok?
    ensures Collect(a + b) == Ok(Collect(a).value + Collect(b).value)
    decreases |a|
  {
    if a == [] {
      assert a + b == b;
      assert [] + Collect(b).value == Collect(b).value;
    } else {
      var ab := a + b;
      assert ab[0] == a[0];
      assert ab[1..] == a[1..] + b;
      CollectAppend(a[1..], b);
      var h := if a[0].value.Some? then [a[0].value.value] else [];
      var tail := Collect(a[1..]).value;
      assert Collect(a).value == h + tail;
      assert Collect(ab[1..]) == Ok(tail + Collect(b).value);
      assert Collect(ab) == Ok(h + (tail + Collect(b).value));
      assert h + (tail + Collect(b).value) == (h + tail) + Collect(b).value;
    }
  }

  /** Collecting without failure keeps every present entry. */
  lemma {:induction false} CollectKeepsEntries(rs: seq<Result<Option<ExtractInfo>, ExtractError>>, i: int)
    requires 0 <= i < |rs| && rs[i].Ok? && rs[i].value.Some?
    requires Collect(rs).Ok?
    ensures rs[i].value.value in Collect(rs).value
    decreases i
  {
    if i > 0 {
      assert rs[1..][i - 1] == rs[i];
      CollectKeepsEntries(rs[1..], i - 1);
    }
  }

  /** Collecting without failure keeps the present entries in their order:
      entry `i` comes before entry `j` whenever `i < j`. */
  lemma {:induction false} CollectKeepsOrder(rs: seq<Result<Option<ExtractInfo>, ExtractError>>, i: int, j: int)
    requires 0 <= i < j < |rs|
    requires rs[i].Ok? && rs[i].value.Some? && rs[j].Ok? && rs[j].value.Some?
    requires Collect(rs).Ok?
    ensures exists p, q :: (0 <= p < q < |Collect(rs).value| &&
      Collect(rs).value[p] == rs[i].value.value && Collect(rs).value[q] == rs[j].value.value)
  {
    var a, b := rs[..j], rs[j..];
    assert rs == a + b;
    if Collect(a).Err? {
      CollectAppendFirstFails(a, b);
    } else if Collect(b).Err? {
      CollectAppendSecondFails(a, b);
    }
    CollectAppend(a, b);
    assert a[i] == rs[i];
    CollectKeepsEntries(a, i);
    var p :| 0 <= p < |Collect(a).value| && Collect(a).value[p] == rs[i].value.value;
    assert b[0] == rs[j];
    assert Collect(b).value == [rs[j].value.value] + Collect(b[1..]).value;
    var q := |Collect(a).value|;
    assert Collect(rs).value[p] == rs[i].value.value;
    assert Collect(rs).value[q] == rs[j].value.value;
  }

  /** Some list item of `items` fails to map. */
  predicate SomeItemFails(items: seq<Token>)
  {
    exists i :: 0 <= i < |items| && MapListItem(items[i]).Err?
  }

  /** Mapping the list items fails exactly when one of them fails to map. */
  lemma {:induction false} MapAllFails(items: seq<Token>)
    ensures Collect(MapAll(items)).Err? <==> SomeItemFails(items)
  {
    var rs := MapAll(items);
    if Collect(rs).Err? {
      var i :| 0 <= i < |rs| && rs[i].Err?;
      assert MapListItem(items[i]).Err?;
    }
    if exists i :: 0 <= i < |items| && MapListItem(items[i]).Err? {
      var i :| 0 <= i < |items| && MapListItem(items[i]).Err?;
      assert rs[i].Err?;
    }
  }

  /** `extract`, from the parsed tree on. */
  function Extract(ast: seq<Token>): (r: Result<seq<ExtractInfo>, ExtractError>)
    ensures r.Ok? ==> |r.value| <= |ListItems(FlatOf(ast))|
  {
    Collect(MapAll(ListItems(FlatOf(ast))))
  }

  /** `extract` fails exactly when some list item of the tree fails to map. */
  lemma {:induction false} ExtractFails(ast: seq<Token>)
    ensures Extract(ast).Err? <==> SomeItemFails(ListItems(FlatOf(ast)))
  {
    var items := ListItems(FlatOf(ast));
    assert Extract(ast) == Collect(MapAll(items));
    MapAllFails(items);
  }

  /** A successful `extract` keeps the entry of every list item that maps to
      one, and keeps them in document order. */
  lemma {:induction false} ExtractKeepsEntries(ast: seq<Token>, i: int, j: int)
    requires 0 <= i < j < |ListItems(FlatOf(ast))|
    requires MapListItem(ListItems(FlatOf(ast))[i]).Ok? && MapListItem(ListItems(FlatOf(ast))[i]).value.Some?
    requires MapListItem(ListItems(FlatOf(ast))[j]).Ok? && MapListItem(ListItems(FlatOf(ast))[j]).value.Some?
    requires Extract(ast).Ok?
    ensures MapListItem(ListItems(FlatOf(ast))[i]).value.value in Extract(ast).value
    ensures MapListItem(ListItems(FlatOf(ast))[j]).value.value in Extract(ast).value
    ensures exists p, q :: (0 <= p < q < |Extract(ast).value| &&
      Extract(ast).value[p] == MapListItem(ListItems(FlatOf(ast))[i]).value.value &&
      Extract(ast).value[q] == MapListItem(ListItems(FlatOf(ast))[j]).value.value)
  {
    var rs := MapAll(ListItems(FlatOf(ast)));
    assert Extract(ast) == Collect(rs);
    CollectKeepsEntries(rs, i);
    CollectKeepsEntries(rs, j);
    CollectKeepsOrder(rs, i, j);
  }

  /** Every entry `extract` returns has a link that is not an in-page anchor
      and no category. */
  lemma {:induction false} ExtractEntries(ast: seq<Token>)
    ensures Extract(ast).Ok? ==> forall e :: e in Extract(ast).value ==>
      !StartsWith(e.source, "#") && e.category.None?
  {
    var items := ListItems(FlatOf(ast));
    var rs := MapAll(items);
    assert Extract(ast) == Collect(rs);
    if Extract(ast).Ok? {
      forall e | e in Extract(ast).value ensures !StartsWith(e.source, "#") && e.category.None? {
        var i :| 0 <= i < |rs| && rs[i] == Ok(Some(e));
        MapListItemCases(items[i]);
      }
    }
  }

  /** A two-entry list: an in-page anchor, which is dropped, and a link whose
      description, read in `flat` order, puts the trailing text before the
      link's own text. */
  function AnchorText(): Token { Leaf("text", Some("Software"), None) }
  function AnchorLink(): Token { Node("link", None, Some("#software"), [AnchorText()]) }
  function AnchorBlock(): Token { Node("block_text", None, None, [AnchorLink()]) }
  function AnchorItem(): Token { Node("list_item", None, None, [AnchorBlock()]) }

  function LinkText(): Token { Leaf("text", Some("BeEF"), None) }
  function LinkToken(): Token { Node("link", None, Some("http://beefproject.com/"), [LinkText()]) }
  function TailText(): Token { Leaf("text", Some("- Manipulate the browser."), None) }
  function LinkBlock(): Token { Node("block_text", None, None, [LinkToken(), TailText()]) }
  function LinkItem(): Token { Node("list_item", None, None, [LinkBlock()]) }

  function SampleList(): Token { Node("list", None, None, [AnchorItem(), LinkItem()]) }

  lemma {:induction false} FlatOfOne(t: Token)
    ensures FlatOf([t]) == FlatTree(t)
  {
    assert [t][..0] == [];
  }

  lemma {:induction false} FlatAnchorItem()
    ensures FlatOf([AnchorItem()]) == [AnchorItem(), AnchorBlock(), AnchorLink(), AnchorText()]
  {
    FlatOfOne(AnchorItem());
    assert FlatTree(AnchorText()) == [AnchorText()];
    assert FlatKids(AnchorLink(), 1) == FlatTree(AnchorText());
    assert FlatKids(AnchorBlock(), 1) == FlatTree(AnchorLink());
    assert FlatKids(AnchorItem(), 1) == FlatTree(AnchorBlock());
  }

  lemma {:induction false} FlatLinkItem()
    ensures FlatOf([LinkItem()]) == [LinkItem(), LinkBlock(), TailText(), LinkToken(), LinkText()]
  {
    FlatOfOne(LinkItem());
    assert FlatTree(LinkText()) == [LinkText()];
    assert FlatTree(TailText()) == [TailText()];
    assert FlatKids(LinkToken(), 1) == FlatTree(LinkText());
    assert FlatKids(LinkBlock(), 1) == FlatTree(LinkToken());
    assert FlatKids(LinkBlock(), 2) == FlatTree(TailText()) + FlatKids(LinkBlock(), 1);
    assert FlatKids(LinkItem(), 1) == FlatTree(LinkBlock());
  }

  lemma {:induction false} AnchorBlockOf()
    ensures BlockOf(AnchorItem()) == AnchorBlock()
  {
    FlatAnchorItem();
  }

  lemma {:induction false} AnchorLinkOf()
    ensures LinkOf(AnchorItem()) == Some(AnchorLink())
  {
    AnchorBlockOf();
    assert FlatOf([AnchorLink()]) == [AnchorLink(), AnchorText()] by {
      FlatOfOne(AnchorLink());
      assert FlatKids(AnchorLink(), 1) == FlatTree(AnchorText());
    }
  }

  lemma {:induction false} MapAnchorItem()
    ensures MapListItem(AnchorItem()) == Ok(None)
  {
    AnchorLinkOf();
    assert StartsWith("#software", "#");
    MapListItemCases(AnchorItem());
  }

  lemma {:induction false} LinkItemText()
    ensures GetText([LinkItem()]) == "- Manipulate the browser. BeEF"
  {
    FlatLinkItem();
    var flat := [LinkItem(), LinkBlock(), TailText(), LinkToken(), LinkText()];
    assert flat[1..][1..][1..][1..] == [LinkText()];
    assert Texts([LinkText()]) == ["BeEF"];
    assert Texts(flat[1..][1..][1..]) == ["BeEF"];
    assert Texts(flat[1..][1..]) == ["- Manipulate the browser."] + ["BeEF"];
    assert Texts(flat) == ["- Manipulate the browser.", "BeEF"];
    JoinCons("- Manipulate the browser.", ["BeEF"], " ");
  }

  lemma {:induction false} LinkTokenText()
    ensures FlatOf([LinkToken(), TailText()]) == [TailText(), LinkToken(), LinkText()]
    ensures GetText([LinkToken()]) == "BeEF"
  {
    FlatOfAppend([LinkToken()], [TailText()]);
    FlatOfOne(LinkToken());
    FlatOfOne(TailText());
    assert FlatKids(LinkToken(), 1) == FlatTree(LinkText());
    assert FlatOf([LinkToken()]) == [LinkToken(), LinkText()];
    assert [LinkToken()] + [TailText()] == [LinkToken(), TailText()];
    assert Texts([LinkText()]) == ["BeEF"];
    assert [LinkToken(), LinkText()][1..] == [LinkText()];
  }

  lemma {:induction false} LinkIsNotAnchor()
    ensures !StartsWith("http://beefproject.com/", "#")
  {
    var link := "http://beefproject.com/";
    assert link[..1][0] == 'h';
  }

  lemma {:induction false} MapLinkItem()
    ensures MapListItem(LinkItem()) == Ok(Some(ExtractInfo("BeEF", "http://beefproject.com/", "- Manipulate the browser. BeEF", None)))
  {
    FlatLinkItem();
    assert BlockOf(LinkItem()) == LinkBlock();
    LinkTokenText();
    assert LinkOf(LinkItem()) == Some(LinkToken());
    LinkItemText();
    LinkIsNotAnchor();
    MapListItemCases(LinkItem());
  }

  function SampleFlat(): seq<Token>
  {
    [SampleList(), LinkItem(), LinkBlock(), TailText(), LinkToken(), LinkText(),
     AnchorItem(), AnchorBlock(), AnchorLink(), AnchorText()]
  }

  /** A node with two children yields itself, then its second child's
      subtree, then its first child's. */
  lemma {:induction false} FlatOfTwoChildren(n: Token, a: Token, b: Token)
    requires n.Node? && n.children == [a, b]
    ensures FlatOf([n]) == [n] + FlatOf([b]) + FlatOf([a])
  {
    assert FlatOf([n]) == [n] + FlatKids(n, 2) by {
      FlatOfOne(n);
    }
    assert FlatKids(n, 2) == FlatOf([b]) + FlatOf([a]) by {
      FlatKidsIsFlatOf(n, 2);
      assert GetChildren(n)[..2] == [a] + [b];
      FlatOfAppend([a], [b]);
    }
  }

  lemma {:induction false} FlatSampleList()
    ensures FlatOf([SampleList()]) == SampleFlat()
  {
    FlatOfTwoChildren(SampleList(), AnchorItem(), LinkItem());
    FlatAnchorItem();
    FlatLinkItem();
  }

  lemma {:induction false} ListItemsAppend(a: seq<Token>, b: seq<Token>)
    ensures ListItems(a + b) == ListItems(a) + ListItems(b)
  {
    if a == [] {
      assert a + b == b;
    } else {
      assert (a + b)[0] == a[0];
      assert (a + b)[1..] == a[1..] + b;
      ListItemsAppend(a[1..], b);
      var head := if IsListItem(a[0]) then [a[0]] else [];
      assert ListItems(a + b) == head + (ListItems(a[1..]) + ListItems(b));
      assert ListItems(a) == head + ListItems(a[1..]);
    }
  }

  lemma {:induction false} NoListItems(ts: seq<Token>)
    requires forall i :: 0 <= i < |ts| ==> |ts[i].kind| != |"list_item"|
    ensures ListItems(ts) == []
  {
    if ts != [] {
      NoListItems(ts[1..]);
    }
  }

  lemma {:induction false} SampleFlatChunks()
    ensures SampleFlat() == [SampleList()] +
      ([LinkItem()] + [LinkBlock(), TailText(), LinkToken(), LinkText()] +
       ([AnchorItem()] + [AnchorBlock(), AnchorLink(), AnchorText()]))
  {
  }

  lemma {:induction false} ListItemsOne(t: Token)
    ensures ListItems([t]) == if IsListItem(t) then [t] else []
  {
    assert [t][1..] == [];
  }

  /** A list item followed by tokens that are not list items yields the item alone. */
  lemma {:induction false} ListItemsLead(t: Token, rest: seq<Token>)
    requires IsListItem(t)
    requires forall i :: 0 <= i < |rest| ==> |rest[i].kind| != |"list_item"|
    ensures ListItems([t] + rest) == [t]
  {
    NoListItems(rest);
    ListItemsAppend([t], rest);
    ListItemsOne(t);
  }

  /** A token that is not a list item, then two runs each led by a list item
      and otherwise free of them: the two leaders, in order. */
  lemma {:induction false} ListItemsOfTwoRuns(head: Token, a: Token, aRest: seq<Token>, b: Token, bRest: seq<Token>)
    requires !IsListItem(head) && IsListItem(a) && IsListItem(b)
    requires forall i :: 0 <= i < |aRest| ==> |aRest[i].kind| != |"list_item"|
    requires forall i :: 0 <= i < |bRest| ==> |bRest[i].kind| != |"list_item"|
    ensures ListItems([head] + ([a] + aRest + ([b] + bRest))) == [a, b]
  {
    ListItemsLead(a, aRest);
    ListItemsLead(b, bRest);
    ListItemsAppend([a] + aRest, [b] + bRest);
    ListItemsAppend([head], [a] + aRest + ([b] + bRest));
    ListItemsOne(head);
  }

  lemma {:induction false} ListItemsSample()
    ensures ListItems(SampleFlat()) == [LinkItem(), AnchorItem()]
  {
    SampleFlatChunks();
    ListItemsOfTwoRuns(SampleList(), LinkItem(), [LinkBlock(), TailText(), LinkToken(), LinkText()],
                       AnchorItem(), [AnchorBlock(), AnchorLink(), AnchorText()]);
  }

  lemma {:induction false} CollectKeepDrop(e: ExtractInfo)
    ensures Collect([Ok(Some(e)), Ok(None)]) == Ok([e])
  {
    var rs: seq<Result<Option<ExtractInfo>, ExtractError>> := [Ok(Some(e)), Ok(None)];
    var last: seq<Result<Option<ExtractInfo>, ExtractError>> := [Ok(None)];
    assert last[1..] == [];
    assert Collect(last) == Ok([]);
    assert rs[1..] == last;
    assert rs[0].Ok? && rs[0].value == Some(e);
    assert Collect(rs) == Ok([e] + []);
    assert [e] + [] == [e];
  }

  lemma {:induction false} MapAllPair(x: Token, y: Token)
    ensures MapAll([x, y]) == [MapListItem(x), MapListItem(y)]
  {
  }

  /** The sample list yields one entry: the anchor item is dropped. */
  lemma {:induction false} ExtractSkipsAnchor(ast: seq<Token>)
    requires ast == [SampleList()]
    ensures Extract(ast) ==
      Ok([ExtractInfo("BeEF", "http://beefproject.com/", "- Manipulate the browser. BeEF", None)])
  {
    FlatSampleList();
    ListItemsSample();
    var e := ExtractInfo("BeEF", "http://beefproject.com/", "- Manipulate the browser. BeEF", None);
    var items := ListItems(FlatOf(ast));
    assert items == [LinkItem(), AnchorItem()];
    MapAllPair(LinkItem(), AnchorItem());
    MapLinkItem();
    MapAnchorItem();
    CollectKeepDrop(e);
  }
}
