/**
  Choosing the short responses offered for a message with several elements.
  The Rust SDK takes the highest response attribute of the elements; the
  TypeScript SDK keeps the first catalog entry of the highest priority and
  offers the intents exported with it. Both must offer the same.
*/
module ResponseChoice {
  import opened Common

  datatype Attribute = N | Y | R | AN | WU | NE

  datatype Intent = Wilco | Unable | Standby | Roger | Affirm | Negative

  /** What a client shows and sends for one intent. */
  datatype Offer = Offer(caption: string, downlinkId: string)

  function DownlinkId(i: Intent): string {
    match i
    case Wilco => "DM0"
    case Unable => "DM1"
    case Standby => "DM2"
    case Roger => "DM3"
    case Affirm => "DM4"
    case Negative => "DM5"
  }

  function UplinkId(i: Intent): string {
    match i
    case Wilco => "UM3"
    case Unable => "UM0"
    case Standby => "UM1"
    case Roger => "UM3"
    case Affirm => "UM4"
    case Negative => "UM5"
  }

  function Label(i: Intent): string {
    match i
    case Wilco => "WILCO"
    case Unable => "UNABLE"
    case Standby => "STANDBY"
    case Roger => "ROGER"
    case Affirm => "AFFIRM"
    case Negative => "NEGATIVE"
  }

  function ForAttribute(a: Attribute): seq<Intent> {
    match a
    case WU => [Wilco, Unable, Standby]
    case AN => [Affirm, Negative, Standby]
    case R => [Roger, Standby]
    case _ => []
  }

  function Offers(intents: seq<Intent>): seq<Offer> {
    seq(|intents|, i requires 0 <= i < |intents| => Offer(Label(intents[i]), DownlinkId(intents[i])))
  }

  // ---------------------------------------------------------------------
  // The Rust chooser
  // ---------------------------------------------------------------------

  /** Declaration order of the Rust enumeration. */
  function Ordinal(a: Attribute): nat {
    match a
    case N => 0
    case Y => 1
    case R => 2
    case AN => 3
    case WU => 4
    case NE => 5
  }

  function Demoted(a: Attribute): Attribute {
    if a == NE then N else a
  }

  /** The greatest attribute, with `NE` counted as `N`; `N` if there is none. */
  function Effective(attrs: seq<Attribute>): Attribute {
    if attrs == [] then N
    else
      var head, rest := Demoted(attrs[0]), Effective(attrs[1..]);
      if Ordinal(rest) > Ordinal(head) then rest else head
  }

  type AttributeTable = string -> Option<Attribute>

  function Resolved(ids: seq<string>, table: AttributeTable): seq<Attribute> {
    if ids == [] then []
    else (match table(ids[0]) case Some(a) => [a] case None => []) + Resolved(ids[1..], table)
  }

  function Choose(ids: seq<string>, table: AttributeTable): seq<Intent> {
    var attrs := Resolved(ids, table);
    ForAttribute(if attrs == [] then WU else Effective(attrs))
  }

  // ---------------------------------------------------------------------
  // The TypeScript chooser
  // ---------------------------------------------------------------------

  datatype CatalogIntent = CatalogIntent(caption: string, uplinkId: string, downlinkId: string)

  datatype CatalogEntry = CatalogEntry(id: string, responseAttr: string, shortResponseIntents: seq<CatalogIntent>)

  type Catalog = string -> Option<CatalogEntry>

  function AttributeName(a: Attribute): string {
    match a
    case N => "N"
    case Y => "Y"
    case R => "R"
    case AN => "AN"
    case WU => "WU"
    case NE => "NE"
  }

  function Priority(attr: string): nat {
    if attr == "WU" then 5
    else if attr == "AN" then 4
    else if attr == "R" then 3
    else if attr == "Y" then 2
    else if attr == "N" || attr == "NE" then 1
    else 0
  }

  function ResponseAttrToIntents(attr: string): seq<Offer> {
    if attr == "WU" then [Offer("WILCO", "DM0"), Offer("UNABLE", "DM1"), Offer("STANDBY", "DM2")]
    else if attr == "AN" then [Offer("AFFIRM", "DM4"), Offer("NEGATIVE", "DM5"), Offer("STANDBY", "DM2")]
    else if attr == "R" then [Offer("ROGER", "DM3"), Offer("STANDBY", "DM2")]
    else []
  }

  function CatalogOffers(intents: seq<CatalogIntent>): seq<Offer> {
    seq(|intents|, i requires 0 <= i < |intents| => Offer(intents[i].caption, intents[i].downlinkId))
  }

  function EntryOffers(entry: CatalogEntry): seq<Offer> {
    if |entry.shortResponseIntents| > 0 then CatalogOffers(entry.shortResponseIntents)
    else ResponseAttrToIntents(entry.responseAttr)
  }

  /** The intents exported with the entry, in order, or else those of its attribute. */
  predicate OffersOf(offers: seq<Offer>, entry: CatalogEntry) {
    var intents := entry.shortResponseIntents;
    if intents == [] then offers == ResponseAttrToIntents(entry.responseAttr)
    else |offers| == |intents|
         && forall i :: 0 <= i < |intents| ==>
              offers[i].caption == intents[i].caption && offers[i].downlinkId == intents[i].downlinkId
  }

  function PriorityOf(id: string, catalog: Catalog): nat {
    match catalog(id)
    case Some(entry) => Priority(entry.responseAttr)
    case None => 0
  }

  method ChooseFromCatalog(ids: seq<string>, catalog: Catalog) returns (offers: seq<Offer>)
    ensures (forall i :: 0 <= i < |ids| ==> PriorityOf(ids[i], catalog) == 0) ==>
              offers == ResponseAttrToIntents("WU")
    ensures forall k :: FirstBest(ids, catalog, k) ==> OffersOf(offers, catalog(ids[k]).value)
    ensures forall table :: Exported(catalog, table) ==> offers == Offers(Choose(ids, table))
  {
    var best: Option<CatalogEntry> := None;
    var bestPriority := 0;
    ghost var at := -1;
    for i := 0 to |ids|
      invariant BestSoFar(ids, catalog, i, best, bestPriority, at)
    {
      var entry := catalog(ids[i]);
      if entry.None? {
        continue;
      }
      var priority := Priority(entry.value.responseAttr);
      if priority > bestPriority {
        bestPriority := priority;
        best := entry;
        at := i;
      }
    }
    if best.None? {
      offers := ResponseAttrToIntents("WU");
      NoneAgrees(ids, catalog);
    } else {
      if |best.value.shortResponseIntents| > 0 {
        offers := CatalogOffers(best.value.shortResponseIntents);
      } else {
        offers := ResponseAttrToIntents(best.value.responseAttr);
      }
      FirstBestIsOne(ids, catalog, best, bestPriority, at);
      BestAgrees(ids, catalog, at);
    }
  }

  predicate FirstBest(ids: seq<string>, catalog: Catalog, k: int) {
    && 0 <= k < |ids|
    && PriorityOf(ids[k], catalog) > 0
    && (forall j :: 0 <= j < |ids| ==> PriorityOf(ids[j], catalog) <= PriorityOf(ids[k], catalog))
    && (forall j :: 0 <= j < k ==> PriorityOf(ids[j], catalog) < PriorityOf(ids[k], catalog))
  }

  /** Among the first `n` ids, `best` is the entry of the first with the highest priority, which is at `at`. */
  predicate BestSoFar(ids: seq<string>, catalog: Catalog, n: nat, best: Option<CatalogEntry>, bestPriority: int,
                      at: int)
    requires n <= |ids|
  {
    && (best.None? <==> bestPriority == 0)
    && (forall j :: 0 <= j < n ==> PriorityOf(ids[j], catalog) <= bestPriority)
    && (best.Some? ==>
          && 0 <= at < n && catalog(ids[at]) == best && PriorityOf(ids[at], catalog) == bestPriority
          && forall j :: 0 <= j < at ==> PriorityOf(ids[j], catalog) < bestPriority)
  }

  lemma FirstBestIsOne(ids: seq<string>, catalog: Catalog, best: Option<CatalogEntry>, bestPriority: int, at: int)
    requires BestSoFar(ids, catalog, |ids|, best, bestPriority, at) && best.Some?
    ensures FirstBest(ids, catalog, at) && forall k :: FirstBest(ids, catalog, k) ==> k == at
  {}

  // ---------------------------------------------------------------------
  // Agreement
  // ---------------------------------------------------------------------

  function ExportIntent(i: Intent): CatalogIntent {
    CatalogIntent(Label(i), UplinkId(i), DownlinkId(i))
  }

  function ExportEntry(id: string, a: Attribute): CatalogEntry {
    var intents := ForAttribute(a);
    CatalogEntry(id, AttributeName(a),
                 seq(|intents|, i requires 0 <= i < |intents| => ExportIntent(intents[i])))
  }

  /** The catalog was exported from the attribute table. */
  ghost predicate Exported(catalog: Catalog, table: AttributeTable) {
    forall id :: catalog(id) == match table(id) case Some(a) => Some(ExportEntry(id, a)) case None => None
  }

  lemma ExportedEntry(a: Attribute, id: string)
    ensures Priority(AttributeName(a)) == Ordinal(Demoted(a)) + 1
    ensures EntryOffers(ExportEntry(id, a)) == Offers(ForAttribute(Demoted(a)))
  {
    var offers := EntryOffers(ExportEntry(id, a));
    match a
    case WU => assert offers == [Offer("WILCO", "DM0"), Offer("UNABLE", "DM1"), Offer("STANDBY", "DM2")];
    case AN => assert offers == [Offer("AFFIRM", "DM4"), Offer("NEGATIVE", "DM5"), Offer("STANDBY", "DM2")];
    case R => assert offers == [Offer("ROGER", "DM3"), Offer("STANDBY", "DM2")];
    case _ => assert offers == [];
  }

  /** What the maximum is: reached by an attribute and bounding all of them. */
  lemma {:induction false} EffectiveIsMax(ids: seq<string>, table: AttributeTable)
    ensures var attrs := Resolved(ids, table);
            && (attrs == [] <==> forall i :: 0 <= i < |ids| ==> table(ids[i]).None?)
            && (forall i :: 0 <= i < |ids| && table(ids[i]).Some? ==>
                  Ordinal(Demoted(table(ids[i]).value)) <= Ordinal(Effective(attrs)))
            && (attrs != [] ==> exists i :: 0 <= i < |ids| && table(ids[i]).Some?
                                            && Demoted(table(ids[i]).value) == Effective(attrs))
  {
    if ids != [] {
      EffectiveIsMax(ids[1..], table);
      var rest := Resolved(ids[1..], table);
      assert forall i :: 1 <= i < |ids| ==> ids[i] == ids[1..][i - 1];
      match table(ids[0])
      case None => assert Resolved(ids, table) == rest;
      case Some(a) => assert Resolved(ids, table) == [a] + rest && ([a] + rest)[1..] == rest;
    }
  }

  lemma NoneChosen(ids: seq<string>, catalog: Catalog, table: AttributeTable)
    requires Exported(catalog, table)
    requires forall i :: 0 <= i < |ids| ==> PriorityOf(ids[i], catalog) == 0
    ensures Offers(Choose(ids, table)) == ResponseAttrToIntents("WU")
  {
    EffectiveIsMax(ids, table);
    forall i | 0 <= i < |ids| ensures table(ids[i]).None? {
      if table(ids[i]).Some? { ExportedEntry(table(ids[i]).value, ids[i]); }
    }
  }

  lemma BestChosen(ids: seq<string>, catalog: Catalog, table: AttributeTable, k: int)
    requires Exported(catalog, table) && FirstBest(ids, catalog, k)
    ensures Offers(Choose(ids, table)) == EntryOffers(catalog(ids[k]).value)
  {
    EffectiveIsMax(ids, table);
    var attrs := Resolved(ids, table);
    assert table(ids[k]).Some?;
    var i :| 0 <= i < |ids| && table(ids[i]).Some? && Demoted(table(ids[i]).value) == Effective(attrs);
    ExportedEntry(table(ids[i]).value, ids[i]);
    ExportedEntry(table(ids[k]).value, ids[k]);
    assert PriorityOf(ids[i], catalog) <= PriorityOf(ids[k], catalog);
    assert Ordinal(Effective(attrs)) == Ordinal(Demoted(table(ids[k]).value));
  }

  /** The choice depends on which elements occur, not on their order or number. */
  lemma ChoiceIgnoresOrder(xs: seq<string>, ys: seq<string>, table: AttributeTable)
    requires forall id :: id in xs <==> id in ys
    ensures Choose(xs, table) == Choose(ys, table)
  {
    EffectiveIsMax(xs, table);
    EffectiveIsMax(ys, table);
    assert forall i :: 0 <= i < |xs| ==> xs[i] in ys;
    assert forall i :: 0 <= i < |ys| ==> ys[i] in xs;
    if Resolved(xs, table) != [] && Resolved(ys, table) != [] {
      BoundedBy(xs, ys, table);
      BoundedBy(ys, xs, table);
    }
  }

  lemma {:induction false} BoundedBy(xs: seq<string>, ys: seq<string>, table: AttributeTable)
    requires forall i :: 0 <= i < |xs| ==> xs[i] in ys
    requires Resolved(xs, table) != []
    ensures Resolved(ys, table) != []
    ensures Ordinal(Effective(Resolved(xs, table))) <= Ordinal(Effective(Resolved(ys, table)))
  {
    EffectiveIsMax(xs, table);
    EffectiveIsMax(ys, table);
    var i :| 0 <= i < |xs| && table(xs[i]).Some? && Demoted(table(xs[i]).value) == Effective(Resolved(xs, table));
    var j :| 0 <= j < |ys| && ys[j] == xs[i];
  }

  lemma NoneAgrees(ids: seq<string>, catalog: Catalog)
    requires forall i :: 0 <= i < |ids| ==> PriorityOf(ids[i], catalog) == 0
    ensures forall table :: Exported(catalog, table) ==> ResponseAttrToIntents("WU") == Offers(Choose(ids, table))
  {
    forall table | Exported(catalog, table) ensures ResponseAttrToIntents("WU") == Offers(Choose(ids, table)) {
      NoneChosen(ids, catalog, table);
    }
  }

  lemma BestAgrees(ids: seq<string>, catalog: Catalog, k: int)
    requires FirstBest(ids, catalog, k)
    ensures forall table :: Exported(catalog, table) ==>
              EntryOffers(catalog(ids[k]).value) == Offers(Choose(ids, table))
  {
    forall table | Exported(catalog, table)
      ensures EntryOffers(catalog(ids[k]).value) == Offers(Choose(ids, table))
    {
      BestChosen(ids, catalog, table, k);
    }
  }
}
