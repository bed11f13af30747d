/** A pack's page (src/pages/PackDetail.jsx): joining and leaving with the optimistic member
    count, the demo fallback when the pack cannot be loaded, and the tab ids. */
module PackDetail {
  import opened Common
  import opened Seqs
  import opened Text

  datatype Pack = Pack(id: string, name: string, city: string, memberCount: Option<int>,
                       description: string)

  /** The demo packs shown when the pack cannot be loaded. Pack "1"'s description ends in the
      four characters the page literally holds (the UTF-8 bytes of the Statue of Liberty emoji read as Windows-1252). */
  const MockPacks: seq<Pack> := [
    Pack("1", "Liberty State Park Pack", "Jersey City", Some(56), "Morning runs by the Statue of Liberty! \U{F0}\U{178}\U{2014}\U{BD}"),
    Pack("2", "Hoboken Waterfront Pups", "Hoboken", Some(89), "Pier A & Sinatra Park meetups."),
    Pack("3", "Central Park Explorers", "New York City", Some(124), "The biggest pack in the Big Apple."),
    Pack("4", "Hamilton Park Hounds", "Jersey City", Some(34), "Small dogs, big personalities."),
    Pack("5", "Washington Square Woofs", "New York City", Some(78), "Music, squirrels, and vibes.")
  ]

  function HasPackId(id: string): Pack -> bool {
    (p: Pack) => p.id == id
  }

  /** `mockPacks.find(p => p.id === packId) || mockPacks[0]`. */
  function FallbackPack(packId: string): (p: Pack)
    ensures p in MockPacks
    ensures (exists i :: 0 <= i < |MockPacks| && MockPacks[i].id == packId) ==> p.id == packId
    ensures (forall i :: 0 <= i < |MockPacks| ==> MockPacks[i].id != packId) ==> p == MockPacks[0]
  {
    match Find(MockPacks, HasPackId(packId))
    case Some(found) => found
    case None => MockPacks[0]
  }

  /** The count after joining: `(count || 0) + 1`. */
  function JoinedCount(count: Option<int>): int {
    OrZero(count) + 1
  }

  /** The count after leaving: `Math.max(0, (count || 0) - 1)`. */
  function LeftCount(count: Option<int>): (c: int)
    ensures c >= 0
    ensures OrZero(count) >= 1 ==> c == OrZero(count) - 1
    ensures OrZero(count) < 1 ==> c == 0
  {
    Max(0, OrZero(count) - 1)
  }

  /** Joining and then leaving restores any non-negative (or missing, read as 0) count. */
  lemma JoinThenLeave(count: Option<int>)
    requires OrZero(count) >= 0
    ensures LeftCount(Some(JoinedCount(count))) == OrZero(count)
  {
  }

  /** The tab id: the tab's label lower-cased with its first '&' removed. */
  function TabId(tab: string): (id: string)
    ensures forall i :: 0 <= i < |id| ==> !IsUpperAscii(id[i])
    ensures |id| == if '&' in tab then |tab| - 1 else |tab|
  {
    var lower := ToLower(tab);
    RemoveFirstSpec(lower, '&');
    assert '&' in lower <==> '&' in tab by {
      assert forall i :: 0 <= i < |tab| ==> (lower[i] == '&' <==> tab[i] == '&');
    }
    RemoveFirst(lower, '&')
  }

  /** The three tabs: "Q&A", "Walks" and "Buddies" have ids "qa", "walks" and "buddies". */
  lemma TabIds()
    ensures TabId("Q&A") == "qa"
    ensures TabId("Walks") == "walks"
    ensures TabId("Buddies") == "buddies"
  {
    assert ToLower("Q&A") == "q&a";
    assert RemoveFirst("q&a", '&') == "qa" by {
      assert RemoveFirst("&a", '&') == "a";
    }
    assert ToLower("Walks") == "walks";
    assert ToLower("Buddies") == "buddies";
    assert '&' !in "walks" && '&' !in "buddies";
    RemoveFirstSpec("walks", '&');
    RemoveFirstSpec("buddies", '&');
  }

  class Page {
    const packId: string
    var pack: Option<Pack>
    var isMember: bool

    constructor (packId: string)
      ensures this.packId == packId && pack.None? && !isMember
    {
      this.packId := packId;
      pack, isMember := None, false;
    }

    /** `fetchPackDetails`: the loaded pack and membership; when the pack query fails and no
        pack is shown yet, the demo fallback. */
    method FetchDetails(loaded: Option<Pack>, memberFound: bool)
      modifies this
      ensures loaded.Some? ==> pack == loaded && isMember == memberFound
      ensures loaded.None? ==> isMember == old(isMember)
      ensures loaded.None? && old(pack).None? ==> pack == Some(FallbackPack(packId))
      ensures loaded.None? && old(pack).Some? ==> pack == old(pack)
    {
      if loaded.Some? {
        pack := loaded;
        isMember := memberFound;
      } else if pack.None? {
        pack := Some(FallbackPack(packId));
      }
    }

    /** `handleJoin`: after a successful insert, a member with one more in the count. */
    method Join(insertFails: bool)
      requires pack.Some?
      modifies this
      ensures insertFails ==> pack == old(pack) && isMember == old(isMember)
      ensures !insertFails ==> isMember && pack == Some(old(pack).value.(memberCount := Some(JoinedCount(old(pack).value.memberCount))))
    {
      if !insertFails {
        isMember := true;
        pack := Some(pack.value.(memberCount := Some(JoinedCount(pack.value.memberCount))));
      }
    }

    /** `handleLeave`: after confirmation and a successful delete, not a member and one fewer
        in the count, never below 0. */
    method Leave(confirmed: bool, deleteFails: bool)
      requires pack.Some?
      modifies this
      ensures !confirmed || deleteFails ==> pack == old(pack) && isMember == old(isMember)
      ensures confirmed && !deleteFails ==> !isMember && pack == Some(old(pack).value.(memberCount := Some(LeftCount(old(pack).value.memberCount))))
      ensures pack.Some?
    {
      if confirmed && !deleteFails {
        isMember := false;
        pack := Some(pack.value.(memberCount := Some(LeftCount(pack.value.memberCount))));
      }
    }
  }

  /** Joining and then leaving a loaded pack gives back the count it had. */
  method JoinAndLeave(p: Pack) returns (before: Option<int>, after: Option<int>)
    requires OrZero(p.memberCount) >= 0
    ensures after == Some(OrZero(before))
  {
    var page := new Page(p.id);
    page.FetchDetails(Some(p), false);
    before := page.pack.value.memberCount;
    page.Join(false);
    page.Leave(true, false);
    JoinThenLeave(before);
    after := page.pack.value.memberCount;
  }
}
