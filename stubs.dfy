/** stubs/hierarchy.go: the legacy in-memory CPI hierarchy.  Every code of
    the goods-and-services code list becomes an `Output` node keyed by the
    first word of its label; the nodes are then linked into a tree, first
    under the root code `CPI`, then between codes one of which contains the
    other.

    The code list (an embedded asset in the service) is a parameter, given
    as its entries in the order Go's `range` over the code map visits them.
    Go leaves the iteration order of a map unspecified, so every `range`
    over `webLabels` is given its order as a parameter too: a sequence
    holding every key exactly once.

    The nodes are objects that the builder updates in place.  Their state is
    specified one level up, as a `Table` from keys to `Node` values in which
    an object reference is written as the key of the object it points at;
    `Represents` relates a map of nodes to the table it stands for. */
module Stubs {
  import opened GoStrings

  /** The root code. */
  const Cpi := "CPI"

  /** `stubs.CodeEntry`: one entry of the code list. */
  datatype CodeEntry = CodeEntry(id: string, code: string, labelText: string)

  predicate Distinct<T(==)>(s: seq<T>)
  {
    forall i, j :: 0 <= i < j < |s| ==> s[i] != s[j]
  }

  /** `s` visits every member of `keys` exactly once, as `range` over a map
      with those keys does. */
  predicate Ordering(s: seq<string>, keys: set<string>)
  {
    && (forall i :: 0 <= i < |s| ==> s[i] in keys)
    && (forall k :: k in keys ==> k in s)
    && Distinct(s)
  }

  // ---------------------------------------------------------------------
  // upsert

  /** What `upsert` returns: `c` itself when `item` is already in it,
      otherwise `c` with `item` appended. */
  function Upserted<T(==)>(c: seq<T>, item: T): (r: seq<T>)
    ensures item in r && c <= r
    ensures |r| == if item in c then |c| else |c| + 1
    ensures forall x | x in r :: x in c || x == item
  {
    if item in c then c else c + [item]
  }

  /** Upserting the same item twice is upserting it once. */
  lemma UpsertedIdempotent<T>(c: seq<T>, item: T)
    ensures Upserted(Upserted(c, item), item) == Upserted(c, item)
  {
  }

  /** Upserting never makes an item appear twice. */
  lemma UpsertedDistinct<T>(c: seq<T>, item: T)
    requires Distinct(c)
    ensures Distinct(Upserted(c, item))
  {
  }

  // ---------------------------------------------------------------------
  // The nodes.

  /** `stubs.Output`: a node of the hierarchy and its links to the nodes
      above and below it.  Nothing writes the node's id, label code or label
      once it is made, so they are constant fields here. */
  class Output {
    const id: string
    var level: int
    const labelCode: string
    const labelText: string
    var children: seq<Output>
    var parents: seq<Output>
    var noOfChildren: int

    /** `&Output{ID: id, LabelCode: labelCode, Label: labelText}`. */
    constructor (id: string, labelCode: string, labelText: string)
      ensures this.id == id && this.labelCode == labelCode && this.labelText == labelText
      ensures level == 0 && children == [] && parents == [] && noOfChildren == 0
    {
      this.id, this.labelCode, this.labelText := id, labelCode, labelText;
      level, children, parents, noOfChildren := 0, [], [], 0;
    }

    /** `addChildren`: clears the child's own links, then appends it to this
        node's children.  A node added as its own child has lost its parents
        and its earlier children. */
    method AddChildren(child: Output)
      modifies this`children, child`parents, child`children
      ensures children == (if child == this then [] else old(children)) + [child]
      ensures child.parents == []
      ensures child != this ==> child.children == [] && parents == old(parents)
    {
      child.parents := [];
      child.children := [];
      children := children + [child];
    }

    /** `addParents`: clears the parent's own links, then appends it to this
        node's parents. */
    method AddParents(parent: Output)
      modifies this`parents, parent`parents, parent`children
      ensures parents == (if parent == this then [] else old(parents)) + [parent]
      ensures parent.children == []
      ensures parent != this ==> parent.parents == [] && children == old(children)
    {
      parent.parents := [];
      parent.children := [];
      parents := parents + [parent];
    }
  }

  /** `upsert`: a search by reference, then an append. */
  method Upsert(c: seq<Output>, item: Output) returns (r: seq<Output>)
    ensures r == Upserted(c, item)
  {
    for i := 0 to |c|
      invariant item !in c[..i]
    {
      if c[i] == item {
        return c;
      }
    }
    assert c[..|c|] == c;
    return c + [item];
  }

  // ---------------------------------------------------------------------
  // The hierarchy as a table of values.

  /** The key of a code: the first space-separated word of its label. */
  function KeyOf(e: CodeEntry): string
  {
    Split(e.labelText, ' ')[0]
  }

  /** The label of a node: the remaining words, joined by single spaces. */
  function RestOf(e: CodeEntry): string
  {
    Join(Split(e.labelText, ' ')[1..], ' ')
  }

  function CodeKeys(codes: seq<CodeEntry>): set<string>
  {
    set e | e in codes :: KeyOf(e)
  }

  /** Which entry the first loop leaves each key with: a later entry with
      the same key replaces an earlier one. */
  function Labels(codes: seq<CodeEntry>): (r: map<string, CodeEntry>)
    ensures r.Keys == CodeKeys(codes)
    decreases |codes|
  {
    if codes == [] then map[]
    else
      var n := |codes| - 1;
      assert forall e :: e in codes <==> e in codes[..n] || e == codes[n];
      assert CodeKeys(codes) == CodeKeys(codes[..n]) + {KeyOf(codes[n])};
      Labels(codes[..n])[KeyOf(codes[n]) := codes[n]]
  }

  /** Each key is left with the last entry that has it. */
  lemma {:induction false} LabelsLastWins(codes: seq<CodeEntry>, i: nat)
    requires i < |codes|
    requires forall j | i < j < |codes| :: KeyOf(codes[j]) != KeyOf(codes[i])
    ensures Labels(codes)[KeyOf(codes[i])] == codes[i]
    decreases |codes|
  {
    var n := |codes| - 1;
    var key := KeyOf(codes[i]);
    assert Labels(codes) == Labels(codes[..n])[KeyOf(codes[n]) := codes[n]];
    if i < n {
      var prefix := codes[..n];
      assert prefix[i] == codes[i];
      assert forall j | i < j < n :: prefix[j] == codes[j];
      LabelsLastWins(prefix, i);
      assert KeyOf(codes[n]) != key;
    }
  }

  /** Each key is left with an entry that has that key. */
  lemma {:induction false} LabelsKeyed(codes: seq<CodeEntry>, k: string)
    requires k in Labels(codes)
    ensures KeyOf(Labels(codes)[k]) == k
    decreases |codes|
  {
    var n := |codes| - 1;
    if KeyOf(codes[n]) != k {
      LabelsKeyed(codes[..n], k);
    }
  }

  /** One more entry read by the first loop. */
  lemma LabelsStep(codes: seq<CodeEntry>, i: nat)
    requires i < |codes|
    ensures Labels(codes[..i + 1]) == Labels(codes[..i])[KeyOf(codes[i]) := codes[i]]
  {
    assert codes[..i + 1][..i] == codes[..i];
  }

  /** The links of a node, with every node it links to written as its key. */
  datatype Node = Node(level: int, children: seq<string>, parents: seq<string>, noOfChildren: int)

  type Table = map<string, Node>

  /** A node the first loop makes: level 0, no links. */
  const Unlinked := Node(0, [], [], 0)

  /** The first loop: one unlinked node per key. */
  function Labelled(codes: seq<CodeEntry>): (t: Table)
    ensures t.Keys == CodeKeys(codes)
    decreases |codes|
  {
    if codes == [] then map[]
    else
      var n := |codes| - 1;
      assert forall e :: e in codes <==> e in codes[..n] || e == codes[n];
      assert CodeKeys(codes) == CodeKeys(codes[..n]) + {KeyOf(codes[n])};
      Labelled(codes[..n])[KeyOf(codes[n]) := Unlinked]
  }

  /** Every node the first loop makes is unlinked. */
  lemma {:induction false} LabelledUnlinked(codes: seq<CodeEntry>)
    ensures forall k | k in Labelled(codes) :: Labelled(codes)[k] == Unlinked
    decreases |codes|
  {
    if codes != [] {
      LabelledUnlinked(codes[..|codes| - 1]);
    }
  }

  /** A key directly below the root: not the root, and without a dot. */
  predicate TopLevel(code: string)
  {
    !Contains(code, ".") && code != Cpi
  }

  /** The top-level keys of `order`, in order. */
  function TopLevelKeys(order: seq<string>): (r: seq<string>)
    ensures forall k :: k in r <==> k in order && TopLevel(k)
    ensures Distinct(order) ==> Distinct(r)
    decreases |order|
  {
    if order == [] then []
    else
      var n := |order| - 1;
      assert forall k :: k in order <==> k in order[..n] || k == order[n];
      var r := TopLevelKeys(order[..n]);
      if TopLevel(order[n]) then r + [order[n]] else r
  }

  /** One key visited by the second loop: a top-level key gets level 1
      and is linked below the root.  A node's label code is its key, so the
      loop's test of the label code is a test of the key.  (The loop only
      visits keys of the table, and the root is one of them.) */
  function LinkToRoot(r: Table, k: string): Table
  {
    if k !in r || Cpi !in r || Contains(k, ".") || k == Cpi then r
    else r[k := r[k].(level := 1, parents := r[k].parents + [Cpi])]
          [Cpi := r[Cpi].(children := r[Cpi].children + [k])]
  }

  /** The second loop, over the keys in the order it visits them. */
  function LinkTopLevel(t: Table, order: seq<string>): (r: Table)
    ensures r.Keys == t.Keys
    decreases |order|
  {
    if order == [] then t
    else
      var n := |order| - 1;
      LinkToRoot(LinkTopLevel(t, order[..n]), order[n])
  }

  /** One more key visited by the second loop. */
  lemma LinkTopLevelSnoc(t: Table, order: seq<string>, j: nat)
    requires j < |order|
    ensures LinkTopLevel(t, order[..j + 1]) == LinkToRoot(LinkTopLevel(t, order[..j]), order[j])
  {
    assert order[..j + 1][..j] == order[..j];
  }

  /** The table after the first two loops and the root's child count. */
  function Leveled(codes: seq<CodeEntry>, cpiOrder: seq<string>): (t: Table)
    requires Cpi in CodeKeys(codes)
    ensures t.Keys == CodeKeys(codes)
  {
    var t0 := Labelled(codes);
    var t1 := t0[Cpi := t0[Cpi].(level := 0)];
    var t2 := LinkTopLevel(t1, cpiOrder);
    t2[Cpi := t2[Cpi].(noOfChildren := |t2[Cpi].children|)]
  }

  /** Two distinct keys one of which contains the other: the pairs the
      third loop compares. */
  predicate Related(base: string, code: string)
  {
    (Contains(code, base) || Contains(base, code)) && code != base
  }

  /** Which level the third loop reads for the base node: the one stored in
      the node, as the code does, or the one its key spells out. */
  datatype LevelRule = StoredLevel | SegmentLevel

  function BaseLevel(rule: LevelRule, t: Table, base: string): int
    requires base in t
  {
    match rule
    case StoredLevel => t[base].level
    case SegmentLevel => Segments(base)
  }

  /** One key compared with the base by the third loop: a related key
      gets the level its segments give, and becomes a child of the base
      when that level is one more than the base's. */
  function CompareOne(rule: LevelRule, r: Table, base: string, code: string): Table
  {
    if base !in r || code !in r then r
    else if (!Contains(code, base) && !Contains(base, code)) || code == base then r
    else
      var compareLevel := Segments(code);
      if compareLevel - BaseLevel(rule, r, base) == 1 then
        r[code := r[code].(level := compareLevel, parents := Upserted(r[code].parents, base))]
         [base := r[base].(noOfChildren := r[base].noOfChildren + 1, children := Upserted(r[base].children, code))]
      else r[code := r[code].(level := compareLevel)]
  }

  /** The inner loop of the third loop, for one base. */
  function CompareWith(rule: LevelRule, t: Table, base: string, order: seq<string>): (r: Table)
    ensures r.Keys == t.Keys
    decreases |order|
  {
    if order == [] then t
    else
      var n := |order| - 1;
      CompareOne(rule, CompareWith(rule, t, base, order[..n]), base, order[n])
  }

  /** One more key compared with the base. */
  lemma CompareWithSnoc(rule: LevelRule, t: Table, base: string, order: seq<string>, n: nat)
    requires n < |order|
    ensures CompareWith(rule, t, base, order[..n + 1]) == CompareOne(rule, CompareWith(rule, t, base, order[..n]), base, order[n])
  {
    assert order[..n + 1][..n] == order[..n];
  }

  /** One base visited by the third loop: every base but the root is
      compared with the keys in the order the inner loop visits them. */
  function CompareBase(rule: LevelRule, r: Table, base: string, order: seq<string>): (r': Table)
    ensures r'.Keys == r.Keys
  {
    if base == Cpi then r else CompareWith(rule, r, base, order)
  }

  /** The third loop: the bases in the order `bases`, with `orders[j]` the
      order of the inner loop for `bases[j]`. */
  function CompareAll(rule: LevelRule, t: Table, bases: seq<string>, orders: seq<seq<string>>): (r: Table)
    requires |orders| == |bases|
    ensures r.Keys == t.Keys
    decreases |bases|
  {
    if bases == [] then t
    else
      var n := |bases| - 1;
      CompareBase(rule, CompareAll(rule, t, bases[..n], orders[..n]), bases[n], orders[n])
  }

  /** One more base visited by the third loop. */
  lemma CompareAllSnoc(rule: LevelRule, t: Table, bases: seq<string>, orders: seq<seq<string>>, j: nat)
    requires |orders| == |bases| && j < |bases|
    ensures CompareAll(rule, t, bases[..j + 1], orders[..j + 1])
            == CompareBase(rule, CompareAll(rule, t, bases[..j], orders[..j]), bases[j], orders[j])
  {
    assert bases[..j + 1][..j] == bases[..j] && orders[..j + 1][..j] == orders[..j];
  }

  /** The orders of the three loops over the finished key set. */
  predicate Orders(codes: seq<CodeEntry>, cpiOrder: seq<string>, bases: seq<string>, orders: seq<seq<string>>)
  {
    && Cpi in CodeKeys(codes)
    && Ordering(cpiOrder, CodeKeys(codes))
    && Ordering(bases, CodeKeys(codes))
    && |orders| == |bases|
    && forall j :: 0 <= j < |orders| ==> Ordering(orders[j], CodeKeys(codes))
  }

  /** The links `GenerateHierarchy` leaves, under a level rule. */
  function Generated(rule: LevelRule, codes: seq<CodeEntry>, cpiOrder: seq<string>,
                     bases: seq<string>, orders: seq<seq<string>>): (t: Table)
    requires Orders(codes, cpiOrder, bases, orders)
    ensures t.Keys == CodeKeys(codes)
  {
    CompareAll(rule, Leveled(codes, cpiOrder), bases, orders)
  }

  // ---------------------------------------------------------------------
  // What the loops do.

  /** The second loop links each top-level key it visits below the root,
      once and in the order it visits them, gives it level 1, and leaves
      every other key as it was. */
  lemma {:induction false} LinkTopLevelLinks(t: Table, order: seq<string>)
    requires Cpi in t && Distinct(order) && forall i :: 0 <= i < |order| ==> order[i] in t
    ensures var r := LinkTopLevel(t, order);
            && r[Cpi] == t[Cpi].(children := t[Cpi].children + TopLevelKeys(order))
            && forall k | k in t && k != Cpi ::
                 r[k] == if k in order && TopLevel(k) then t[k].(level := 1, parents := t[k].parents + [Cpi]) else t[k]
    decreases |order|
  {
    if order != [] {
      var n := |order| - 1;
      assert forall k :: k in order <==> k in order[..n] || k == order[n];
      LinkTopLevelLinks(t, order[..n]);
    }
  }

  /** After the first two loops and the count, the root has level 0 and
      exactly the top-level keys as its children, each once, counted; each
      top-level key has level 1 and the root as its only parent; every other
      key is still unlinked. */
  lemma Rooted(codes: seq<CodeEntry>, cpiOrder: seq<string>)
    requires Cpi in CodeKeys(codes) && Ordering(cpiOrder, CodeKeys(codes))
    ensures var t := Leveled(codes, cpiOrder);
            && t[Cpi] == Node(0, TopLevelKeys(cpiOrder), [], |TopLevelKeys(cpiOrder)|)
            && (forall k :: k in t[Cpi].children <==> k in t && TopLevel(k))
            && Distinct(t[Cpi].children)
            && forall k | k in t && k != Cpi :: t[k] == if TopLevel(k) then Node(1, [], [Cpi], 0) else Unlinked
  {
    LabelledUnlinked(codes);
    var t0 := Labelled(codes);
    LinkTopLevelLinks(t0[Cpi := t0[Cpi].(level := 0)], cpiOrder);
  }

  /** `code` lies one level below a base of level `baseLevel`, and one of
      the two keys contains the other. */
  predicate Below(base: string, baseLevel: int, code: string)
  {
    Related(base, code) && Segments(code) - baseLevel == 1
  }

  /** The keys of `order` that lie one level below the base, in order. */
  function Matches(base: string, baseLevel: int, order: seq<string>): (r: seq<string>)
    ensures forall k :: k in r <==> k in order && Below(base, baseLevel, k)
    ensures Distinct(order) ==> Distinct(r)
    decreases |order|
  {
    if order == [] then []
    else
      var n := |order| - 1;
      assert forall k :: k in order <==> k in order[..n] || k == order[n];
      var r := Matches(base, baseLevel, order[..n]);
      if Below(base, baseLevel, order[n]) then r + [order[n]] else r
  }

  /** One comparison adds the key to the base's children exactly when it
      lies one level below the base. */
  lemma CompareOneBase(rule: LevelRule, r: Table, base: string, x: string)
    requires base in r && x in r
    ensures CompareOne(rule, r, base, x)[base]
            == if Below(base, BaseLevel(rule, r, base), x)
               then r[base].(children := Upserted(r[base].children, x), noOfChildren := r[base].noOfChildren + 1)
               else r[base]
  {
  }

  /** One comparison sets the level of a related key and, when the key lies
      one level below the base, makes the base its parent; it leaves every
      other key but the base alone. */
  lemma CompareOneOther(rule: LevelRule, r: Table, base: string, x: string, k: string)
    requires base in r && x in r && k in r && k != base
    ensures CompareOne(rule, r, base, x)[k]
            == if k == x && Related(base, k)
               then r[k].(level := Segments(k),
                          parents := if Below(base, BaseLevel(rule, r, base), k) then Upserted(r[k].parents, base) else r[k].parents)
               else r[k]
  {
  }

  /** The inner loop for one base leaves the base's level as it was. */
  lemma {:induction false} CompareWithKeepsLevel(rule: LevelRule, t: Table, base: string, order: seq<string>)
    requires base in t
    ensures CompareWith(rule, t, base, order)[base].level == t[base].level
    decreases |order|
  {
    if order != [] {
      CompareWithKeepsLevel(rule, t, base, order[..|order| - 1]);
    }
  }

  /** The inner loop for one base appends the keys one level below the
      base's starting level to the base's children and counts them; the
      base's level and parents stay as they were. */
  lemma {:induction false} CompareWithBase(rule: LevelRule, t: Table, base: string, order: seq<string>)
    requires base in t && Distinct(order) && forall i :: 0 <= i < |order| ==> order[i] in t
    requires forall k | k in order :: k !in t[base].children
    ensures var found := Matches(base, BaseLevel(rule, t, base), order);
            CompareWith(rule, t, base, order)[base]
            == t[base].(children := t[base].children + found, noOfChildren := t[base].noOfChildren + |found|)
    decreases |order|
  {
    if order != [] {
      var n := |order| - 1;
      assert forall k :: k in order <==> k in order[..n] || k == order[n];
      CompareWithBase(rule, t, base, order[..n]);
      CompareWithKeepsLevel(rule, t, base, order[..n]);
      CompareWithBaseStep(rule, t, base, order);
    }
  }

  /** The inductive step of `CompareWithBase`: what holds of the base after
      all keys but the last carries over to all keys. */
  lemma CompareWithBaseStep(rule: LevelRule, t: Table, base: string, order: seq<string>)
    requires base in t && order != [] && Distinct(order) && forall i :: 0 <= i < |order| ==> order[i] in t
    requires forall k | k in order :: k !in t[base].children
    requires var n := |order| - 1;
             var found := Matches(base, BaseLevel(rule, t, base), order[..n]);
             CompareWith(rule, t, base, order[..n])[base]
             == t[base].(children := t[base].children + found, noOfChildren := t[base].noOfChildren + |found|)
    ensures var found := Matches(base, BaseLevel(rule, t, base), order);
            CompareWith(rule, t, base, order)[base]
            == t[base].(children := t[base].children + found, noOfChildren := t[base].noOfChildren + |found|)
  {
    var n := |order| - 1;
    var r := CompareWith(rule, t, base, order[..n]);
    var x := order[n];
    var lvl := BaseLevel(rule, t, base);
    assert BaseLevel(rule, r, base) == lvl;
    assert x !in order[..n];
    assert x !in r[base].children;
    CompareOneBase(rule, r, base, x);
    assert CompareWith(rule, t, base, order) == CompareOne(rule, r, base, x);
    if Below(base, lvl, x) {
      assert Matches(base, lvl, order) == Matches(base, lvl, order[..n]) + [x];
    } else {
      assert Matches(base, lvl, order) == Matches(base, lvl, order[..n]);
    }
  }

  /** The inner loop for one base gives every other key it visits that is
      related to the base the level its segments spell out, and makes the
      base a parent of those one level below the base's starting level;
      it leaves other keys' children and counts alone. */
  lemma {:induction false} CompareWithOther(rule: LevelRule, t: Table, base: string, order: seq<string>, k: string)
    requires base in t && k in t && k != base && Distinct(order) && forall i :: 0 <= i < |order| ==> order[i] in t
    ensures var lvl := BaseLevel(rule, t, base);
            CompareWith(rule, t, base, order)[k]
            == t[k].(level := if k in order && Related(base, k) then Segments(k) else t[k].level,
                     parents := if k in order && Below(base, lvl, k) then Upserted(t[k].parents, base) else t[k].parents)
    decreases |order|
  {
    if order != [] {
      var n := |order| - 1;
      CompareWithOther(rule, t, base, order[..n], k);
      CompareWithKeepsLevel(rule, t, base, order[..n]);
      assert order == order[..n] + [order[n]];
      CompareWithOtherStep(rule, t, CompareWith(rule, t, base, order[..n]), base, order[..n], order[n], k);
    }
  }

  /** The inductive step of `CompareWithOther`: comparing one more key `x`
      with the base after the keys of `prefix`. */
  lemma CompareWithOtherStep(rule: LevelRule, t: Table, r: Table, base: string, prefix: seq<string>, x: string, k: string)
    requires base in t && base in r && x in r && k in t && k in r && k != base && x !in prefix
    requires r[base].level == t[base].level
    requires r[k] == t[k].(level := if k in prefix && Related(base, k) then Segments(k) else t[k].level,
                           parents := if k in prefix && Below(base, BaseLevel(rule, t, base), k) then Upserted(t[k].parents, base) else t[k].parents)
    ensures var lvl := BaseLevel(rule, t, base);
            CompareOne(rule, r, base, x)[k]
            == t[k].(level := if k in prefix + [x] && Related(base, k) then Segments(k) else t[k].level,
                     parents := if k in prefix + [x] && Below(base, lvl, k) then Upserted(t[k].parents, base) else t[k].parents)
  {
    assert BaseLevel(rule, r, base) == BaseLevel(rule, t, base);
    CompareOneOther(rule, r, base, x, k);
    assert k in prefix + [x] <==> k in prefix || k == x;
  }

  /** The inner loop for one base leaves the children and the count of
      every other key alone. */
  lemma {:induction false} CompareWithKeeps(rule: LevelRule, t: Table, base: string, order: seq<string>, k: string)
    requires k in t && k != base
    ensures var r := CompareWith(rule, t, base, order);
            r[k].children == t[k].children && r[k].noOfChildren == t[k].noOfChildren
    decreases |order|
  {
    if order != [] {
      CompareWithKeeps(rule, t, base, order[..|order| - 1], k);
    }
  }

  /** The third loop changes the children and the count only of the bases
      other than the root. */
  lemma {:induction false} CompareAllKeeps(rule: LevelRule, t: Table, bases: seq<string>, orders: seq<seq<string>>, k: string)
    requires |orders| == |bases| && k in t && (k !in bases || k == Cpi)
    requires forall j, i :: 0 <= j < |orders| && 0 <= i < |orders[j]| ==> orders[j][i] in t
    ensures var r := CompareAll(rule, t, bases, orders);
            r[k].children == t[k].children && r[k].noOfChildren == t[k].noOfChildren
    decreases |bases|
  {
    if bases != [] {
      var n := |bases| - 1;
      assert forall x :: x in bases <==> x in bases[..n] || x == bases[n];
      CompareAllKeeps(rule, t, bases[..n], orders[..n], k);
      var r := CompareAll(rule, t, bases[..n], orders[..n]);
      if bases[n] != Cpi {
        CompareWithKeeps(rule, r, bases[n], orders[n], k);
      }
    }
  }

  /** The third loop under the level the keys spell out: each base but the
      root ends up with exactly the keys of its inner loop one level below
      it as its children, counted. */
  lemma {:induction false} CompareAllLinks(t: Table, bases: seq<string>, orders: seq<seq<string>>, j: nat)
    requires |orders| == |bases| && Distinct(bases) && j < |bases| && bases[j] != Cpi
    requires forall j :: 0 <= j < |bases| ==> bases[j] in t
    requires Distinct(orders[j])
    requires forall j, i :: 0 <= j < |orders| && 0 <= i < |orders[j]| ==> orders[j][i] in t
    requires t[bases[j]].children == [] && t[bases[j]].noOfChildren == 0
    ensures var r := CompareAll(SegmentLevel, t, bases, orders);
            var found := Matches(bases[j], Segments(bases[j]), orders[j]);
            r[bases[j]].children == found && r[bases[j]].noOfChildren == |found|
    decreases |bases|
  {
    var n := |bases| - 1;
    var r := CompareAll(SegmentLevel, t, bases[..n], orders[..n]);
    if j == n {
      assert bases[n] !in bases[..n];
      CompareAllKeeps(SegmentLevel, t, bases[..n], orders[..n], bases[n]);
      CompareWithBase(SegmentLevel, r, bases[n], orders[n]);
    } else {
      assert bases[..n][j] == bases[j] && orders[..n][j] == orders[j];
      CompareAllLinks(t, bases[..n], orders[..n], j);
      if bases[n] != Cpi {
        CompareWithKeeps(SegmentLevel, r, bases[n], orders[n], bases[j]);
      }
    }
  }
  /** Linked one level below: what the third loop would link if it read a
      base's level from its key. */
  predicate Linked(base: string, code: string)
  {
    Below(base, Segments(base), code)
  }

  /** With the level each key spells out, the hierarchy no longer depends on
      the order in which the maps are visited: the root's children are the
      top-level keys, and every other key's children are exactly the keys
      one level below it that contain it or that it contains, each once,
      with the count matching. */
  lemma IntendedChildren(codes: seq<CodeEntry>, cpiOrder: seq<string>, bases: seq<string>, orders: seq<seq<string>>)
    requires Orders(codes, cpiOrder, bases, orders)
    ensures var r := Generated(SegmentLevel, codes, cpiOrder, bases, orders);
            && r[Cpi].children == TopLevelKeys(cpiOrder) && r[Cpi].noOfChildren == |r[Cpi].children|
            && (forall k :: k in r[Cpi].children <==> k in r && TopLevel(k))
            && forall b | b in r && b != Cpi ::
                 && (forall k :: k in r[b].children <==> k in r && Linked(b, k))
                 && Distinct(r[b].children)
                 && r[b].noOfChildren == |r[b].children|
  {
    var t := Leveled(codes, cpiOrder);
    Rooted(codes, cpiOrder);
    CompareAllKeeps(SegmentLevel, t, bases, orders, Cpi);
    var r := Generated(SegmentLevel, codes, cpiOrder, bases, orders);
    forall b | b in r && b != Cpi
      ensures forall k :: k in r[b].children <==> k in r && Linked(b, k)
      ensures Distinct(r[b].children) && r[b].noOfChildren == |r[b].children|
    {
      var j :| 0 <= j < |bases| && bases[j] == b;
      assert Ordering(orders[j], CodeKeys(codes));
      CompareAllLinks(t, bases, orders, j);
    }
  }

  // ---------------------------------------------------------------------
  // The level the third loop reads depends on the visiting order.

  /** Three keys, the root, a division `d` directly below it and a class
      `c` within the division, with the third loop visiting the class as a
      base before the division and every inner loop visiting the keys in
      the order `o`. */
  predicate ClassFirst(codes: seq<CodeEntry>, cpiOrder: seq<string>, o: seq<string>, d: string, c: string)
  {
    && Orders(codes, cpiOrder, [c, d, Cpi], [o, o, o])
    && TopLevel(d) && !TopLevel(c) && c != Cpi
    && Contains(c, d) && Segments(d) == 1 && Segments(c) == 2
  }

  /** The class visited first as a base: its stored level is still 0, so
      the division becomes its child and gets level 1. */
  lemma ClassVisited(t: Table, o: seq<string>, d: string, c: string)
    requires c in t && d in t && c != d && Distinct(o) && d in o && forall i :: 0 <= i < |o| ==> o[i] in t
    requires t[c] == Unlinked && t[d].children == [] && Contains(c, d) && Segments(d) == 1
    ensures var r := CompareWith(StoredLevel, t, c, o);
            d in r[c].children && r[d].level == 1 && r[d].children == []
  {
    CompareWithBase(StoredLevel, t, c, o);
    CompareWithOther(StoredLevel, t, c, o, d);
    assert d in Matches(c, 0, o);
  }

  /** The division visited next: its level is now 1, so the class becomes
      its child, and the class keeps the division as its own child. */
  lemma DivisionVisited(r: Table, o: seq<string>, d: string, c: string)
    requires c in r && d in r && c != d && Distinct(o) && c in o && forall i :: 0 <= i < |o| ==> o[i] in r
    requires r[d].level == 1 && r[d].children == [] && d in r[c].children
    requires Contains(c, d) && Segments(c) == 2
    ensures var r' := CompareWith(StoredLevel, r, d, o);
            c in r'[d].children && d in r'[c].children
  {
    CompareWithBase(StoredLevel, r, d, o);
    CompareWithKeeps(StoredLevel, r, d, o, c);
    assert c in Matches(d, 1, o);
  }

  /** The third loop over two bases and then the root. */
  lemma TwoBasesThenRoot(rule: LevelRule, t: Table, o: seq<string>, d: string, c: string)
    requires c != Cpi && d != Cpi
    ensures CompareAll(rule, t, [c, d, Cpi], [o, o, o]) == CompareWith(rule, CompareWith(rule, t, c, o), d, o)
  {
    var bases := [c, d, Cpi];
    var orders := [o, o, o];
    CompareAllSnoc(rule, t, bases, orders, 0);
    CompareAllSnoc(rule, t, bases, orders, 1);
    CompareAllSnoc(rule, t, bases, orders, 2);
    assert bases[..0] == [] && orders[..0] == [];
    assert bases[..3] == bases && orders[..3] == orders;
  }

  /** As written, the third loop reads the level stored in the base node,
      which is still 0 for a class that no earlier base has reached.  When
      a class is visited as a base before its division, the division is
      taken to lie one level below the class, and the two become each
      other's child.  With the level the key spells out, the division is
      not a child of the class. */
  lemma StoredLevelCycle(codes: seq<CodeEntry>, cpiOrder: seq<string>, o: seq<string>, d: string, c: string)
    requires ClassFirst(codes, cpiOrder, o, d, c)
    ensures c in CodeKeys(codes) && d in CodeKeys(codes)
    ensures var r := Generated(StoredLevel, codes, cpiOrder, [c, d, Cpi], [o, o, o]);
            d in r[c].children && c in r[d].children
    ensures var r := Generated(SegmentLevel, codes, cpiOrder, [c, d, Cpi], [o, o, o]);
            d !in r[c].children
  {
    var bases := [c, d, Cpi];
    var orders := [o, o, o];
    assert bases[0] == c && bases[1] == d && orders[0] == o;
    var t := Leveled(codes, cpiOrder);
    Rooted(codes, cpiOrder);
    ClassVisited(t, o, d, c);
    var r1 := CompareWith(StoredLevel, t, c, o);
    DivisionVisited(r1, o, d, c);
    TwoBasesThenRoot(StoredLevel, t, o, d, c);
    IntendedChildren(codes, cpiOrder, bases, orders);
  }

  /** The root, the division `01` and its class `01.1`. */
  const Sample := [CodeEntry("c0", "CPI", "CPI"), CodeEntry("c1", "01", "01"), CodeEntry("c2", "01.1", "01.1")]

  /** The keys of the sample codes. */
  lemma SampleKeys()
    ensures CodeKeys(Sample) == {"CPI", "01", "01.1"}
  {
    SplitNoSeparator("CPI", ' ');
    SplitNoSeparator("01", ' ');
    SplitNoSeparator("01.1", ' ');
    assert KeyOf(Sample[0]) == "CPI" && KeyOf(Sample[1]) == "01" && KeyOf(Sample[2]) == "01.1";
  }

  /** The levels the sample keys spell out. */
  lemma SampleSegments()
    ensures Segments("01") == 1 && Segments("01.1") == 2
  {
    SplitNoSeparator("01", '.');
    SplitNoSeparator("1", '.');
    assert "01.1" == "01" + ['.'] + "1";
    SplitAround("01", "1", '.');
  }

  /** Which sample keys contain which. */
  lemma SampleRelations()
    ensures TopLevel("01") && !TopLevel("01.1") && "01.1" != Cpi && Contains("01.1", "01")
  {
    assert "01" + "." + "1" == "01.1";
    ContainsInfix("01", ".", "1");
    assert "01" <= "01.1";
    assert "01"[0] != Cpi[0];
    if Contains("01", ".") { ContainsChars("01", "."); }
  }

  /** Two orders in which `range` may visit the sample's keys. */
  lemma SampleOrders()
    ensures Ordering(["CPI", "01", "01.1"], CodeKeys(Sample))
    ensures Ordering(["01.1", "01", "CPI"], CodeKeys(Sample))
  {
    SampleKeys();
  }

  /** The sample is such a case: visited with the class `01.1` first, the
      division `01` and the class end up each other's child. */
  lemma SampleClassFirst()
    ensures ClassFirst(Sample, ["CPI", "01", "01.1"], ["CPI", "01", "01.1"], "01", "01.1")
  {
    SampleKeys();
    SampleSegments();
    SampleRelations();
    SampleOrders();
  }

  // ---------------------------------------------------------------------
  // Reading the nodes as a table.

  /** A list of nodes written as their label codes. */
  function CodesOf(os: seq<Output>): (cs: seq<string>)
    ensures |cs| == |os| && forall i | 0 <= i < |os| :: cs[i] == os[i].labelCode
  {
    seq(|os|, i requires 0 <= i < |os| => os[i].labelCode)
  }

  /** `c` is the node stored under its own label code. */
  predicate Stored(m: map<string, Output>, c: Output)
  {
    c.labelCode in m && m[c.labelCode] == c
  }

  /** Every node is stored under its own label code, so distinct keys hold
      distinct nodes. */
  predicate Keyed(m: map<string, Output>)
  {
    forall k | k in m :: m[k].labelCode == k
  }

  /** Every node a node links to is stored in the map. */
  ghost predicate Closed(m: map<string, Output>)
    reads m.Values
  {
    forall k | k in m :: LinksStored(m, m[k])
  }

  /** Every node `o` links to is stored in `m`. */
  ghost predicate LinksStored(m: map<string, Output>, o: Output)
    reads o
  {
    && (forall c | c in o.children :: Stored(m, c))
    && (forall p | p in o.parents :: Stored(m, p))
  }

  ghost predicate Valid(m: map<string, Output>)
    reads m.Values
  {
    Keyed(m) && Closed(m)
  }

  /** The links of a node as a value. */
  ghost function NodeOf(o: Output): Node
    reads o
  {
    Node(o.level, CodesOf(o.children), CodesOf(o.parents), o.noOfChildren)
  }

  /** The nodes of `m` stand for the table `t`: the same keys, and under
      each key the links that `t` holds. */
  ghost predicate Represents(m: map<string, Output>, t: Table)
    reads m.Values
  {
    m.Keys == t.Keys && forall k {:trigger t[k]} | k in m :: NodeOf(m[k]) == t[k]
  }

  /** Upserting a node upserts its label code, as long as no other node in
      the list has the same one. */
  lemma CodesOfUpserted(os: seq<Output>, o: Output)
    requires forall x | x in os && x.labelCode == o.labelCode :: x == o
    ensures CodesOf(Upserted(os, o)) == Upserted(CodesOf(os), o.labelCode)
  {
    var cs := CodesOf(os);
    if o.labelCode in cs {
      var i :| 0 <= i < |cs| && cs[i] == o.labelCode;
      assert os[i] == o;
    }
  }

  /** Appending a node appends its label code. */
  lemma CodesOfAppend(os: seq<Output>, o: Output)
    ensures CodesOf(os + [o]) == CodesOf(os) + [o.labelCode]
  {
  }

  // ---------------------------------------------------------------------
  // Writing one field of one node.

  /** `webLabels[k].Level = level`. */
  method SetLevel(m: map<string, Output>, ghost t: Table, k: string, node: Output, level: int)
    requires Valid(m) && Represents(m, t) && k in m && m[k] == node
    modifies node`level
    ensures Valid(m) && Represents(m, t[k := t[k].(level := level)])
  {
    node.level := level;
  }

  /** `webLabels[k].NoOfChildren = count`. */
  method SetCount(m: map<string, Output>, ghost t: Table, k: string, node: Output, count: int)
    requires Valid(m) && Represents(m, t) && k in m && m[k] == node
    modifies node`noOfChildren
    ensures Valid(m) && Represents(m, t[k := t[k].(noOfChildren := count)])
  {
    node.noOfChildren := count;
  }

  /** `webLabels[k].Children = children`, with every new child a stored node. */
  method SetChildren(m: map<string, Output>, ghost t: Table, k: string, node: Output, children: seq<Output>)
    requires Valid(m) && Represents(m, t) && k in m && m[k] == node && forall c | c in children :: Stored(m, c)
    modifies node`children
    ensures Valid(m) && Represents(m, t[k := t[k].(children := CodesOf(children))])
  {
    node.children := children;
  }

  /** `webLabels[k].Parents = parents`, with every new parent a stored node. */
  method SetParents(m: map<string, Output>, ghost t: Table, k: string, node: Output, parents: seq<Output>)
    requires Valid(m) && Represents(m, t) && k in m && m[k] == node && forall p | p in parents :: Stored(m, p)
    modifies node`parents
    ensures Valid(m) && Represents(m, t[k := t[k].(parents := CodesOf(parents))])
  {
    node.parents := parents;
  }

  /** `webLabels[k].Children = append(webLabels[k].Children, child)`. */
  method AppendChild(m: map<string, Output>, ghost t: Table, k: string, node: Output, child: Output)
    requires Valid(m) && Represents(m, t) && k in m && m[k] == node && Stored(m, child)
    modifies node`children
    ensures Valid(m) && Represents(m, t[k := t[k].(children := t[k].children + [child.labelCode])])
  {
    assert LinksStored(m, m[k]) && NodeOf(node) == t[k];
    CodesOfAppend(node.children, child);
    SetChildren(m, t, k, node, node.children + [child]);
  }

  /** `webLabels[k].Parents = append(webLabels[k].Parents, parent)`. */
  method AppendParent(m: map<string, Output>, ghost t: Table, k: string, node: Output, parent: Output)
    requires Valid(m) && Represents(m, t) && k in m && m[k] == node && Stored(m, parent)
    modifies node`parents
    ensures Valid(m) && Represents(m, t[k := t[k].(parents := t[k].parents + [parent.labelCode])])
  {
    assert LinksStored(m, m[k]) && NodeOf(node) == t[k];
    CodesOfAppend(node.parents, parent);
    SetParents(m, t, k, node, node.parents + [parent]);
  }

  /** `webLabels[k].Children = upsert(webLabels[k].Children, child)`. */
  method UpsertChild(m: map<string, Output>, ghost t: Table, k: string, node: Output, child: Output)
    requires Valid(m) && Represents(m, t) && k in m && m[k] == node && Stored(m, child)
    modifies node`children
    ensures Valid(m) && Represents(m, t[k := t[k].(children := Upserted(t[k].children, child.labelCode))])
  {
    assert LinksStored(m, m[k]) && NodeOf(node) == t[k];
    CodesOfUpserted(node.children, child);
    var children := Upsert(node.children, child);
    SetChildren(m, t, k, node, children);
  }

  /** `webLabels[k].Parents = upsert(webLabels[k].Parents, parent)`. */
  method UpsertParent(m: map<string, Output>, ghost t: Table, k: string, node: Output, parent: Output)
    requires Valid(m) && Represents(m, t) && k in m && m[k] == node && Stored(m, parent)
    modifies node`parents
    ensures Valid(m) && Represents(m, t[k := t[k].(parents := Upserted(t[k].parents, parent.labelCode))])
  {
    assert LinksStored(m, m[k]) && NodeOf(node) == t[k];
    CodesOfUpserted(node.parents, parent);
    var parents := Upsert(node.parents, parent);
    SetParents(m, t, k, node, parents);
  }

  // ---------------------------------------------------------------------
  // GenerateHierarchy

  /** The nodes carry the entries the first loop leaves each key with. */
  ghost predicate Labelling(m: map<string, Output>, codes: seq<CodeEntry>)
  {
    && m.Keys == Labels(codes).Keys
    && forall k | k in m :: m[k].id == Labels(codes)[k].id && m[k].labelText == RestOf(Labels(codes)[k])
  }

  /** The first loop of `GenerateHierarchy` (stubs/hierarchy.go:39-47): a
      fresh unlinked node per key. */
  method LabelCodes(codes: seq<CodeEntry>) returns (webLabels: map<string, Output>)
    ensures Valid(webLabels) && forall k | k in webLabels :: fresh(webLabels[k])
    ensures Labelling(webLabels, codes) && Represents(webLabels, Labelled(codes))
  {
    webLabels := map[];
    for i := 0 to |codes|
      invariant Keyed(webLabels) && forall k | k in webLabels :: fresh(webLabels[k])
      invariant Labelling(webLabels, codes[..i])
      invariant forall k | k in webLabels :: NodeOf(webLabels[k]) == Unlinked
    {
      var l := Split(codes[i].labelText, ' ');
      var o := new Output(codes[i].id, l[0], Join(l[1..], ' '));
      LabelsStep(codes, i);
      webLabels := webLabels[l[0] := o];
    }
    assert codes[..|codes|] == codes;
    LabelledUnlinked(codes);
  }

  /** One iteration of the second loop of `GenerateHierarchy`
      (stubs/hierarchy.go:52-58). */
  method LinkNodeToRoot(webLabels: map<string, Output>, ghost t: Table, k: string)
    requires Valid(webLabels) && Represents(webLabels, t) && Cpi in t && k in t
    modifies webLabels.Values
    ensures Valid(webLabels) && Represents(webLabels, LinkToRoot(t, k))
  {
    var v := webLabels[k];
    if Contains(v.labelCode, ".") || k == Cpi {
      return;
    }
    LinkToRootAttaches(t, k);
    AttachToRoot(webLabels, t, k);
  }

  /** `t` with `k` made a child of the root: the level of `k`, then the
      children of the root, then the parents of `k`. */
  ghost function RootAttached(t: Table, k: string): Table
    requires Cpi in t && k in t
  {
    var t1 := t[k := t[k].(level := 1)];
    var t2 := t1[Cpi := t1[Cpi].(children := t1[Cpi].children + [k])];
    t2[k := t2[k].(parents := t2[k].parents + [Cpi])]
  }

  /** Linking a top-level code other than the root is those three writes. */
  lemma LinkToRootAttaches(t: Table, k: string)
    requires Cpi in t && k in t && !Contains(k, ".") && k != Cpi
    ensures LinkToRoot(t, k) == RootAttached(t, k)
  {
  }

  /** The writes that make `k` a child of the root (stubs/hierarchy.go:55-57). */
  method AttachToRoot(webLabels: map<string, Output>, ghost t: Table, k: string)
    requires Valid(webLabels) && Represents(webLabels, t) && Cpi in t && k in t && k != Cpi
    modifies webLabels.Values
    ensures Valid(webLabels) && Represents(webLabels, RootAttached(t, k))
  {
    var v := webLabels[k];
    var root := webLabels[Cpi];
    SetLevel(webLabels, t, k, v, 1);
    ghost var t1 := t[k := t[k].(level := 1)];
    AppendChild(webLabels, t1, Cpi, root, v);
    ghost var t2 := t1[Cpi := t1[Cpi].(children := t1[Cpi].children + [k])];
    AppendParent(webLabels, t2, k, v, root);
  }

  /** The second loop of `GenerateHierarchy` (stubs/hierarchy.go:51-59):
      links every top-level node below the root. */
  method LinkUnderRoot(webLabels: map<string, Output>, ghost t: Table, order: seq<string>)
    requires Valid(webLabels) && Represents(webLabels, t) && Cpi in t
    requires forall i :: 0 <= i < |order| ==> order[i] in t
    modifies webLabels.Values
    ensures Valid(webLabels) && Represents(webLabels, LinkTopLevel(t, order))
  {
    ghost var r := t;
    for j := 0 to |order|
      invariant r == LinkTopLevel(t, order[..j]) && r.Keys == t.Keys
      invariant Valid(webLabels) && Represents(webLabels, r)
    {
      LinkNodeToRoot(webLabels, r, order[j]);
      LinkTopLevelSnoc(t, order, j);
      r := LinkToRoot(r, order[j]);
    }
    assert order[..|order|] == order;
  }

  /** `t` with `ci` made a child of `bi`: the count of `bi`, then its
      children, then the parents of `ci`. */
  ghost function Attached(t: Table, bi: string, ci: string): Table
    requires bi in t && ci in t
  {
    var t1 := t[bi := t[bi].(noOfChildren := t[bi].noOfChildren + 1)];
    var t2 := t1[bi := t1[bi].(children := Upserted(t1[bi].children, ci))];
    t2[ci := t2[ci].(parents := Upserted(t2[ci].parents, bi))]
  }

  /** A comparison that links `ci` below `bi`: its level is set first, then
      the links on both sides. */
  lemma CompareOneLinks(t: Table, bi: string, ci: string)
    requires bi in t && ci in t && Related(bi, ci) && Segments(ci) - t[bi].level == 1
    ensures CompareOne(StoredLevel, t, bi, ci) == Attached(t[ci := t[ci].(level := Segments(ci))], bi, ci)
  {
  }

  /** A comparison that only sets the level of `ci`. */
  lemma CompareOneLevels(t: Table, bi: string, ci: string)
    requires bi in t && ci in t && Related(bi, ci) && Segments(ci) - t[bi].level != 1
    ensures CompareOne(StoredLevel, t, bi, ci) == t[ci := t[ci].(level := Segments(ci))]
  {
  }

  /** The writes that make `ci` a child of `bi` (stubs/hierarchy.go:76-79). */
  method LinkCompared(webLabels: map<string, Output>, ghost t: Table, bi: string, ci: string)
    requires Valid(webLabels) && Represents(webLabels, t) && bi in t && ci in t && bi != ci
    modifies webLabels.Values
    ensures Valid(webLabels) && Represents(webLabels, Attached(t, bi, ci))
  {
    var base := webLabels[bi];
    var compare := webLabels[ci];
    assert NodeOf(base) == t[bi];
    SetCount(webLabels, t, bi, base, base.noOfChildren + 1);
    ghost var t1 := t[bi := t[bi].(noOfChildren := t[bi].noOfChildren + 1)];
    UpsertChild(webLabels, t1, bi, base, compare);
    ghost var t2 := t1[bi := t1[bi].(children := Upserted(t1[bi].children, ci))];
    UpsertParent(webLabels, t2, ci, compare, base);
  }

  /** One iteration of the inner loop of the third loop of
      `GenerateHierarchy` (stubs/hierarchy.go:69-80). */
  method CompareNode(webLabels: map<string, Output>, ghost t: Table, bi: string, ci: string)
    requires Valid(webLabels) && Represents(webLabels, t) && bi in t && ci in t
    modifies webLabels.Values
    ensures Valid(webLabels) && Represents(webLabels, CompareOne(StoredLevel, t, bi, ci))
  {
    var base := webLabels[bi];
    var compare := webLabels[ci];
    if (!Contains(ci, bi) && !Contains(bi, ci)) || ci == bi {
      assert CompareOne(StoredLevel, t, bi, ci) == t;
      return;
    }
    assert NodeOf(base) == t[bi] && NodeOf(compare) == t[ci];
    var compareLevel := Segments(ci);
    SetLevel(webLabels, t, ci, compare, compareLevel);
    ghost var t1 := t[ci := t[ci].(level := compareLevel)];
    if compareLevel - base.level == 1 {
      CompareOneLinks(t, bi, ci);
      LinkCompared(webLabels, t1, bi, ci);
    } else {
      CompareOneLevels(t, bi, ci);
    }
  }

  /** The inner loop of the third loop of `GenerateHierarchy`
      (stubs/hierarchy.go:68-81), for the base `bi`. */
  method LinkBelow(webLabels: map<string, Output>, ghost t: Table, bi: string, order: seq<string>)
    requires Valid(webLabels) && Represents(webLabels, t) && bi in t
    requires forall i :: 0 <= i < |order| ==> order[i] in t
    modifies webLabels.Values
    ensures Valid(webLabels) && Represents(webLabels, CompareWith(StoredLevel, t, bi, order))
  {
    ghost var r := t;
    for n := 0 to |order|
      invariant r == CompareWith(StoredLevel, t, bi, order[..n]) && r.Keys == t.Keys
      invariant Valid(webLabels) && Represents(webLabels, r)
    {
      CompareNode(webLabels, r, bi, order[n]);
      CompareWithSnoc(StoredLevel, t, bi, order, n);
      r := CompareOne(StoredLevel, r, bi, order[n]);
    }
    assert order[..|order|] == order;
  }

  /** The third loop of `GenerateHierarchy` (stubs/hierarchy.go:63-83). */
  method LinkRelated(webLabels: map<string, Output>, ghost t: Table, bases: seq<string>, orders: seq<seq<string>>)
    requires Valid(webLabels) && Represents(webLabels, t) && |orders| == |bases|
    requires forall j :: 0 <= j < |bases| ==> bases[j] in t
    requires forall j, i :: 0 <= j < |orders| && 0 <= i < |orders[j]| ==> orders[j][i] in t
    modifies webLabels.Values
    ensures Valid(webLabels) && Represents(webLabels, CompareAll(StoredLevel, t, bases, orders))
  {
    ghost var r := t;
    for j := 0 to |bases|
      invariant r == CompareAll(StoredLevel, t, bases[..j], orders[..j]) && r.Keys == t.Keys
      invariant Valid(webLabels) && Represents(webLabels, r)
    {
      var bi := bases[j];
      var base := webLabels[bi];
      CompareAllSnoc(StoredLevel, t, bases, orders, j);
      if base.labelCode != Cpi {
        LinkBelow(webLabels, r, bi, orders[j]);
      }
      r := CompareBase(StoredLevel, r, bi, orders[j]);
    }
    assert bases[..|bases|] == bases && orders[..|orders|] == orders;
  }

  /** The root's level, the second loop of `GenerateHierarchy` and the
      root's child count (stubs/hierarchy.go:49-61). */
  method LinkRoot(webLabels: map<string, Output>, codes: seq<CodeEntry>, cpiOrder: seq<string>)
    requires Cpi in CodeKeys(codes) && Ordering(cpiOrder, CodeKeys(codes))
    requires Valid(webLabels) && Represents(webLabels, Labelled(codes))
    modifies webLabels.Values
    ensures Valid(webLabels) && Represents(webLabels, Leveled(codes, cpiOrder))
  {
    ghost var t0 := Labelled(codes);
    SetLevel(webLabels, t0, Cpi, webLabels[Cpi], 0);
    ghost var t1 := t0[Cpi := t0[Cpi].(level := 0)];
    LinkUnderRoot(webLabels, t1, cpiOrder);
    SetCount(webLabels, LinkTopLevel(t1, cpiOrder), Cpi, webLabels[Cpi], |webLabels[Cpi].children|);
  }

  /** `GenerateHierarchy`: builds the nodes and links them.  The map it
      returns holds a fresh node per key, carrying the entry the first loop
      left that key with, and its links are those `Generated` describes. */
  method GenerateHierarchy(codes: seq<CodeEntry>, cpiOrder: seq<string>, bases: seq<string>, orders: seq<seq<string>>)
    returns (webLabels: map<string, Output>)
    requires Orders(codes, cpiOrder, bases, orders)
    ensures Valid(webLabels) && forall k | k in webLabels :: fresh(webLabels[k])
    ensures Labelling(webLabels, codes)
    ensures Represents(webLabels, Generated(StoredLevel, codes, cpiOrder, bases, orders))
  {
    webLabels := LabelCodes(codes);
    LinkRoot(webLabels, codes, cpiOrder);
    LinkRelated(webLabels, Leveled(codes, cpiOrder), bases, orders);
  }
}
