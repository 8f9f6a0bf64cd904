/**
  The controller's queue of pending dialogues: one card for each dialogue that
  is open or was closed a short while ago.
*/
module DialogueQueue {
  import opened Common
  import opened DialogueRules
  import opened Dialogues
  import opened Enumerations
  import opened ResponseChoice
  import opened Sequences

  // ---------------------------------------------------------------------
  // The cards of a log
  // ---------------------------------------------------------------------

  predicate Indexed(messages: seq<ReceivedMessage>, tracks: map<Key, Track>) {
    forall key :: key in tracks ==> tracks[key].lastIndex < |messages|
                                    && Concerns(messages[tracks[key].lastIndex], key.0)
  }

  function CardOf(messages: seq<ReceivedMessage>, track: Track, now: int, table: AttributeTable):
    Option<PendingDialogue>
    requires track.lastIndex < |messages|
  {
    var req := messages[track.lastIndex];
    if track.closed && !IsRecentClosure(req, now) then None else Some(Card(messages, req, now, table))
  }

  /** The cards to show, by dialogue. */
  function CardsOf(messages: seq<ReceivedMessage>, tracks: map<Key, Track>, now: int, table: AttributeTable):
    map<Key, PendingDialogue>
    requires Indexed(messages, tracks)
  {
    map key | key in tracks && CardOf(messages, tracks[key], now, table).Some?
      :: CardOf(messages, tracks[key], now, table).value
  }

  lemma {:induction false} TracksAreIndexed(messages: seq<ReceivedMessage>)
    ensures Indexed(messages, Grouped(Views(messages)).tracks)
  {
    var log := Views(messages);
    forall key | key in Grouped(log).tracks
      ensures Grouped(log).tracks[key].lastIndex < |messages|
              && Concerns(messages[Grouped(log).tracks[key].lastIndex], key.0)
    {
      TracksAreDialogues(log, key);
    }
  }

  function Queue(messages: seq<ReceivedMessage>, now: int, table: AttributeTable): map<Key, PendingDialogue> {
    TracksAreIndexed(messages);
    CardsOf(messages, Grouped(Views(messages)).tracks, now, table)
  }

  /** `i` is the latest message of the dialogue. */
  ghost predicate IsLatest(log: Log, key: Key, i: nat) {
    Member(log, i, key) && forall j: nat :: Member(log, j, key) ==> j <= i
  }

  /**
    A dialogue has a card if and only if none of its messages closes it, or
    the latest one does and is at most a minute old: a closed dialogue whose
    latest message is not a closing one disappears at once.
  */
  lemma {:induction false} ShownIff(messages: seq<ReceivedMessage>, key: Key, i: nat, now: int, table: AttributeTable)
    requires IsLatest(Views(messages), key, i)
    ensures key in Queue(messages, now, table) <==>
            || (forall j: nat :: Member(Views(messages), j, key) ==> !IsClosing(messages[j]))
            || IsRecentClosure(messages[i], now)
    ensures key in Queue(messages, now, table) ==>
              Queue(messages, now, table)[key] == Card(messages, messages[i], now, table)
  {
    var log := Views(messages);
    var tracks := Grouped(log).tracks;
    TracksAreIndexed(messages);
    TracksAreDialogues(log, key);
    assert key in tracks;
    assert tracks[key].lastIndex == i;
    assert forall j: nat :: Member(log, j, key) ==> log[j].value.closing == IsClosing(messages[j]);
  }

  /** A fresh request that reuses the MIN of a closed dialogue has no card. */
  lemma {:induction false} ReusedMinIsHidden(messages: seq<ReceivedMessage>, cs: Callsign, now: int,
                                             table: AttributeTable)
    requires Views(messages) == ReusedMin(cs)
    ensures (cs, 1) !in Queue(messages, now, table)
  {
    var log, key := Views(messages), (cs, 1);
    ReusedMinJoins(cs);
    assert |log| == 3;
    assert IsLatest(log, key, 2);
    assert Member(log, 1, key) && IsClosing(messages[1]) && !IsClosing(messages[2]) by {
      assert log[1].value.closing && !log[2].value.closing;
    }
    ShownIff(messages, key, 2, now, table);
  }

  // ---------------------------------------------------------------------
  // Aircraft do not mix
  // ---------------------------------------------------------------------

  /** Two maps of roots agree on one aircraft, and the second holds nothing else. */
  ghost predicate SameRoots(roots: map<Key, Min>, own: map<Key, Min>, callsign: Callsign) {
    && (forall key: Key :: key in own <==> key.0 == callsign && key in roots)
    && (forall key: Key :: key in own ==> roots[key] == own[key])
  }

  predicate SameTrack(messages: seq<ReceivedMessage>, t: Track, own: seq<ReceivedMessage>, u: Track) {
    && t.lastIndex < |messages| && u.lastIndex < |own| && messages[t.lastIndex] == own[u.lastIndex]
    && t.closed == u.closed && t.mins == u.mins
  }

  /** Two maps of dialogues agree on one aircraft, and the second holds nothing else. */
  ghost predicate SameTracks(messages: seq<ReceivedMessage>, tracks: map<Key, Track>,
                             own: seq<ReceivedMessage>, ownTracks: map<Key, Track>, callsign: Callsign) {
    && (forall key: Key :: key in ownTracks <==> key.0 == callsign && key in tracks)
    && (forall key: Key :: key in ownTracks ==> SameTrack(messages, tracks[key], own, ownTracks[key]))
  }

  lemma {:induction false} GroupsDoNotMix(messages: seq<ReceivedMessage>, callsign: Callsign)
    ensures var own := Only(messages, callsign);
            var g, h := Grouped(Views(messages)), Grouped(Views(own));
            SameRoots(g.roots, h.roots, callsign) && SameTracks(messages, g.tracks, own, h.tracks, callsign)
  {
    if messages != [] {
      var init, last := messages[..|messages| - 1], messages[|messages| - 1];
      var ownInit := Only(init, callsign);
      var g, h := Grouped(Views(init)), Grouped(Views(ownInit));
      GroupsDoNotMix(init, callsign);
      assert messages == init + [last];
      GroupedSnoc(init, last);
      if Concerns(last, callsign) {
        GroupedSnoc(ownInit, last);
        BothJoin(init, ownInit, last, g, h, callsign);
      } else {
        assert Only(messages, callsign) == ownInit;
        OtherJoins(init, ownInit, last, g, h, callsign);
      }
    }
  }

  lemma GroupedSnoc(init: seq<ReceivedMessage>, last: ReceivedMessage)
    ensures Grouped(Views(init + [last])) == Joins(Grouped(Views(init)), |init|, View(last))
  {
    ViewsSnoc(init + [last]);
    assert (init + [last])[..|init|] == init;
  }

  lemma OtherJoins(messages: seq<ReceivedMessage>, own: seq<ReceivedMessage>, last: ReceivedMessage,
                   g: Grouping, h: Grouping, callsign: Callsign)
    requires !Concerns(last, callsign)
    requires SameRoots(g.roots, h.roots, callsign) && SameTracks(messages, g.tracks, own, h.tracks, callsign)
    ensures var g' := Joins(g, |messages|, View(last));
            SameRoots(g'.roots, h.roots, callsign)
            && SameTracks(messages + [last], g'.tracks, own, h.tracks, callsign)
  {
    var v := View(last);
    if v.Some? { assert v.value.callsign != callsign; }
  }

  lemma {:induction false} BothJoin(messages: seq<ReceivedMessage>, own: seq<ReceivedMessage>, last: ReceivedMessage,
                 g: Grouping, h: Grouping, callsign: Callsign)
    requires Concerns(last, callsign)
    requires SameRoots(g.roots, h.roots, callsign) && SameTracks(messages, g.tracks, own, h.tracks, callsign)
    ensures var g', h' := Joins(g, |messages|, View(last)), Joins(h, |own|, View(last));
            SameRoots(g'.roots, h'.roots, callsign)
            && SameTracks(messages + [last], g'.tracks, own + [last], h'.tracks, callsign)
  {
    var v := View(last);
    if v.Some? {
      var c := v.value;
      var root := RootFor(g, c);
      assert root == RootFor(h, c) by {
        if c.mrn.Some? { assert (c.callsign, c.mrn.value).0 == callsign; }
      }
      var key := (callsign, root);
      TrackJoins(messages, own, last, g, h, key, c);
    } else {
      TracksGrow(messages, own, last, g.tracks, h.tracks, callsign);
    }
  }

  lemma TracksGrow(messages: seq<ReceivedMessage>, own: seq<ReceivedMessage>, last: ReceivedMessage,
                   tracks: map<Key, Track>, ownTracks: map<Key, Track>, callsign: Callsign)
    requires SameTracks(messages, tracks, own, ownTracks, callsign)
    ensures SameTracks(messages + [last], tracks, own + [last], ownTracks, callsign)
  {
  }

  lemma TrackJoins(messages: seq<ReceivedMessage>, own: seq<ReceivedMessage>, last: ReceivedMessage,
                   g: Grouping, h: Grouping, key: Key, c: Candidate)
    requires SameTracks(messages, g.tracks, own, h.tracks, key.0)
    ensures SameTracks(messages + [last], g.tracks[key := Joined(Entry(g, key, |messages|), |messages|, c)],
                       own + [last], h.tracks[key := Joined(Entry(h, key, |own|), |own|, c)], key.0)
  {
    TracksGrow(messages, own, last, g.tracks, h.tracks, key.0);
    var t, u := Joined(Entry(g, key, |messages|), |messages|, c), Joined(Entry(h, key, |own|), |own|, c);
    assert SameTrack(messages + [last], t, own + [last], u);
  }

  function ForAircraft(callsign: Callsign): Key -> bool {
    (key: Key) => key.0 == callsign
  }

  /** The cards of an aircraft are those its own messages give. */
  lemma {:induction false} QueuesDoNotMix(messages: seq<ReceivedMessage>, callsign: Callsign, now: int,
                                          table: AttributeTable)
    ensures Queue(Only(messages, callsign), now, table)
         == Restricted(Queue(messages, now, table), ForAircraft(callsign))
  {
    var own := Only(messages, callsign);
    var g, h := Grouped(Views(messages)), Grouped(Views(own));
    GroupsDoNotMix(messages, callsign);
    TracksAreIndexed(messages);
    TracksAreIndexed(own);
    CardsDoNotMix(messages, g.tracks, h.tracks, callsign, now, table);
  }

  lemma CardsDoNotMix(messages: seq<ReceivedMessage>, tracks: map<Key, Track>, ownTracks: map<Key, Track>,
                      callsign: Callsign, now: int, table: AttributeTable)
    requires Indexed(messages, tracks) && Indexed(Only(messages, callsign), ownTracks)
    requires SameTracks(messages, tracks, Only(messages, callsign), ownTracks, callsign)
    ensures CardsOf(Only(messages, callsign), ownTracks, now, table)
         == Restricted(CardsOf(messages, tracks, now, table), ForAircraft(callsign))
  {
    forall key: Key | key in ownTracks
      ensures CardOf(Only(messages, callsign), ownTracks[key], now, table) == CardOf(messages, tracks[key], now, table)
    {
      CardDoesNotMix(messages, tracks, ownTracks, key, now, table);
    }
  }

  lemma CardDoesNotMix(messages: seq<ReceivedMessage>, tracks: map<Key, Track>, ownTracks: map<Key, Track>,
                       key: Key, now: int, table: AttributeTable)
    requires Indexed(messages, tracks) && Indexed(Only(messages, key.0), ownTracks)
    requires SameTracks(messages, tracks, Only(messages, key.0), ownTracks, key.0) && key in ownTracks
    ensures CardOf(Only(messages, key.0), ownTracks[key], now, table) == CardOf(messages, tracks[key], now, table)
  {
    CardAmongOwn(messages, messages[tracks[key].lastIndex], key.0, now, table);
  }

  lemma {:induction false} CardsNameTheirAircraft(messages: seq<ReceivedMessage>, key: Key, now: int,
                                                  table: AttributeTable)
    requires key in Queue(messages, now, table)
    ensures Queue(messages, now, table)[key].aircraft == key.0
    ensures exists i :: 0 <= i < |messages|
                        && Queue(messages, now, table)[key] == Card(messages, messages[i], now, table)
                        && Some(key.0) == if messages[i].outgoing then messages[i].to else messages[i].from
  {
    TracksAreIndexed(messages);
    CardNamesAircraft(messages, messages[Grouped(Views(messages)).tracks[key].lastIndex], now, table);
  }

  // ---------------------------------------------------------------------
  // The queue as a list
  // ---------------------------------------------------------------------

  predicate Before(a: PendingDialogue, b: PendingDialogue) {
    a.priority < b.priority || (a.priority == b.priority && a.timestamp >= b.timestamp)
  }

  predicate Ordered(cards: seq<PendingDialogue>) {
    forall i, j :: 0 <= i < j < |cards| ==> Before(cards[i], cards[j])
  }

  /** `card` goes in front of the cards that must not precede it. */
  function Insert(cards: seq<PendingDialogue>, card: PendingDialogue): seq<PendingDialogue> {
    if cards == [] || Before(cards[|cards| - 1], card) then cards + [card]
    else Insert(cards[..|cards| - 1], card) + [cards[|cards| - 1]]
  }

  lemma {:induction false} InsertIs(cards: seq<PendingDialogue>, card: PendingDialogue)
    requires Ordered(cards)
    ensures Ordered(Insert(cards, card)) && multiset(Insert(cards, card)) == multiset(cards) + multiset{card}
  {
    if cards != [] {
      var init, last := cards[..|cards| - 1], cards[|cards| - 1];
      if Before(last, card) {
        forall i | 0 <= i < |init| ensures Before(cards[i], card) { assert Before(cards[i], last); }
        OrderedSnoc(cards, card);
      } else {
        InsertIs(init, card);
        InsertedBefore(init, card, Insert(init, card), last);
        assert cards == init + [last];
      }
    }
  }

  lemma OrderedSnoc(cards: seq<PendingDialogue>, card: PendingDialogue)
    requires Ordered(cards) && forall i :: 0 <= i < |cards| ==> Before(cards[i], card)
    ensures Ordered(cards + [card])
  {}

  lemma InsertedBefore(init: seq<PendingDialogue>, card: PendingDialogue, r: seq<PendingDialogue>,
                       last: PendingDialogue)
    requires Ordered(init + [last]) && Ordered(r) && multiset(r) == multiset(init) + multiset{card}
    requires !Before(last, card)
    ensures Ordered(r + [last]) && multiset(r + [last]) == multiset(init + [last]) + multiset{card}
  {
    forall i | 0 <= i < |init| ensures Before(init[i], last) {
      assert Before((init + [last])[i], (init + [last])[|init|]);
    }
    StaysBefore(init, card, r, last);
    OrderedSnoc(r, last);
  }

  lemma StaysBefore(init: seq<PendingDialogue>, card: PendingDialogue, r: seq<PendingDialogue>, last: PendingDialogue)
    requires multiset(r) == multiset(init) + multiset{card} && Before(card, last)
    requires forall i :: 0 <= i < |init| ==> Before(init[i], last)
    ensures forall i :: 0 <= i < |r| ==> Before(r[i], last)
  {
    forall i | 0 <= i < |r| ensures Before(r[i], last) {
      assert r[i] in multiset(r);
      if r[i] != card { assert r[i] in multiset(init); }
    }
  }

  /** The stable sort by priority, the latest first. */
  function Sorted(cards: seq<PendingDialogue>): seq<PendingDialogue> {
    if cards == [] then [] else Insert(Sorted(cards[..|cards| - 1]), cards[|cards| - 1])
  }

  lemma {:induction false} SortedIs(cards: seq<PendingDialogue>)
    ensures Ordered(Sorted(cards)) && multiset(Sorted(cards)) == multiset(cards)
  {
    if cards != [] {
      var init, last := cards[..|cards| - 1], cards[|cards| - 1];
      assert cards == init + [last];
      SortedIs(init);
      InsertIs(Sorted(init), last);
    }
  }

  /** The one-pass grouping. */
  method GroupDialogues(messages: seq<ReceivedMessage>) returns (dialogues: map<Key, Track>)
    ensures dialogues == Grouped(Views(messages)).tracks
  {
    ghost var log := Views(messages);
    var minToRoot: map<Key, Min> := map[];
    dialogues := map[];
    for idx := 0 to |messages|
      invariant Grouping(minToRoot, dialogues) == Grouped(log[..idx])
    {
      assert log[..idx + 1][..idx] == log[..idx] && log[idx] == View(messages[idx]);
      var msg := messages[idx];
      var cs := DialogueCallsign(msg);
      if !IsCandidate(msg) || cs.None? {
        continue;
      }
      var min := msg.min.value;
      var root := if msg.mrn.Some? && (cs.value, msg.mrn.value) in minToRoot
                  then minToRoot[(cs.value, msg.mrn.value)] else min;
      minToRoot := minToRoot[(cs.value, min) := root];
      var key := (cs.value, root);
      var track := if key in dialogues then dialogues[key] else Track([], idx, false);
      if min !in track.mins {
        track := track.(mins := track.mins + [min]);
      }
      track := track.(lastIndex := idx);
      if IsClosing(msg) {
        track := track.(closed := true);
      }
      dialogues := dialogues[key := track];
    }
    assert log[..|messages|] == log;
  }

  /** One card for each group to show, in whatever order the hash map gives them. */
  method DealCards(messages: seq<ReceivedMessage>, dialogues: map<Key, Track>, now: int, table: AttributeTable)
    returns (out: seq<PendingDialogue>)
    requires Indexed(messages, dialogues)
    ensures Lists(out, CardsOf(messages, dialogues, now, table))
  {
    ghost var cards := CardsOf(messages, dialogues, now, table);
    ghost var keys: seq<Key> := [];
    out := [];
    var todo := dialogues.Keys;
    while todo != {}
      invariant todo <= dialogues.Keys && Listing(keys, todo, cards)
      invariant out == Dealt(keys, cards)
      decreases |todo|
    {
      var key :| key in todo;
      ListingStep(keys, todo, key, cards);
      todo := todo - {key};
      var card := CardOf(messages, dialogues[key], now, table);
      if card.Some? {
        out := out + [card.value];
        keys := keys + [key];
      }
    }
    assert Enumerates(keys, cards);
  }

  /** The queue: group, deal the cards, sort. */
  method BuildPendingDialogues(messages: seq<ReceivedMessage>, now: int, table: AttributeTable)
    returns (out: seq<PendingDialogue>)
    ensures forall i, j :: 0 <= i < j < |out| ==>
      out[i].priority < out[j].priority || (out[i].priority == out[j].priority && out[i].timestamp >= out[j].timestamp)
    ensures Lists(out, Queue(messages, now, table))
  {
    var dialogues := GroupDialogues(messages);
    TracksAreIndexed(messages);
    var cards := DealCards(messages, dialogues, now, table);
    SortedIs(cards);
    SameLists(cards, Sorted(cards), Queue(messages, now, table));
    out := Sorted(cards);
    assert Ordered(out);
  }

  lemma SameLists(a: seq<PendingDialogue>, b: seq<PendingDialogue>, cards: map<Key, PendingDialogue>)
    requires Lists(a, cards) && multiset(a) == multiset(b)
    ensures Lists(b, cards)
  {
    var keys :| Enumerates(keys, cards) && multiset(a) == multiset(Dealt(keys, cards));
    assert Enumerates(keys, cards) && multiset(b) == multiset(Dealt(keys, cards));
  }

  function Naming(callsign: Callsign): PendingDialogue -> bool {
    (card: PendingDialogue) => card.aircraft == callsign
  }

  /**
    Aircraft do not mix: of any list the queue gives, the cards that name an
    aircraft are those any list built from its messages alone holds.
  */
  lemma {:induction false} AircraftDoNotMix(messages: seq<ReceivedMessage>, callsign: Callsign, now: int,
                                            table: AttributeTable,
                                            out: seq<PendingDialogue>, own: seq<PendingDialogue>)
    requires Lists(out, Queue(messages, now, table))
    requires Lists(own, Queue(Only(messages, callsign), now, table))
    ensures multiset(Kept(out, Naming(callsign))) == multiset(own)
  {
    var cards := Queue(messages, now, table);
    QueuesDoNotMix(messages, callsign, now, table);
    forall key | key in cards ensures cards[key].aircraft == key.0 {
      CardsNameTheirAircraft(messages, key, now, table);
    }
    KeptLists(cards, ForAircraft(callsign), Naming(callsign), out, own);
  }
}
