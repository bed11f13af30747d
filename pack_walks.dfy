/** A pack's walk board (src/components/PackWalks.jsx): scheduling a walk into the list kept in
    start-time order, RSVPs and their counts. */
module PackWalks {
  import opened Common
  import opened Seqs

  /** A row of `pack_walks` as the page holds it; `rsvpCount` is `pack_walk_rsvps[0].count`. */
  datatype PackWalk = PackWalk(id: string, title: string, location: string, startTime: int,
                               description: string, rsvpCount: Option<int>)

  /** The schedule form. */
  datatype Draft = Draft(title: string, location: string, date: string, time: string,
                         description: string)

  const EmptyDraft: Draft := Draft("", "", "", "", "")

  /** `walk.pack_walk_rsvps?.[0]?.count || 0`. */
  function AttendeeCount(w: PackWalk): (n: int)
    ensures w.rsvpCount.None? ==> n == 0
    ensures w.rsvpCount.Some? ==> n == w.rsvpCount.value
  {
    OrZero(w.rsvpCount)
  }

  /** The form can be submitted only with a title, a date and a time (empty strings are falsy;
      location and description may be empty). */
  predicate CanSchedule(d: Draft) {
    d.title != [] && d.date != [] && d.time != []
  }

  function StartKey(): PackWalk -> real {
    (w: PackWalk) => w.startTime as real
  }

  /** The RSVP map the fetch builds: every walk id among the user's RSVP rows marked going. */
  method BuildRsvpMap(walkIds: seq<string>) returns (m: map<string, bool>)
    ensures forall k :: k in m <==> k in walkIds
    ensures forall k :: k in m ==> m[k]
  {
    m := map[];
    for i := 0 to |walkIds|
      invariant forall k :: k in m <==> k in walkIds[..i]
      invariant forall k :: k in m ==> m[k]
    {
      assert walkIds[..i + 1] == walkIds[..i] + [walkIds[i]];
      m := m[walkIds[i] := true];
    }
    assert walkIds[..|walkIds|] == walkIds;
  }

  /** The count update of an RSVP: only walks with this id gain one attendee, from 0 when the
      count is missing. */
  function BumpCount(walks: seq<PackWalk>, walkId: string): (r: seq<PackWalk>)
    ensures |r| == |walks|
    ensures forall i :: 0 <= i < |walks| ==>
              if walks[i].id == walkId
              then r[i] == walks[i].(rsvpCount := Some(AttendeeCount(walks[i]) + 1))
                   && AttendeeCount(r[i]) == AttendeeCount(walks[i]) + 1
              else r[i] == walks[i]
  {
    seq(|walks|, i requires 0 <= i < |walks| =>
      if walks[i].id == walkId then walks[i].(rsvpCount := Some(AttendeeCount(walks[i]) + 1))
      else walks[i])
  }

  class Board {
    const packId: string
    var walks: seq<PackWalk>
    /** Walk id to "going". */
    var rsvps: map<string, bool>
    var draft: Draft
    var showScheduleModal: bool

    constructor (packId: string)
      ensures this.packId == packId && walks == [] && rsvps == map[]
      ensures draft == EmptyDraft && !showScheduleModal
    {
      this.packId := packId;
      walks, rsvps, draft, showScheduleModal := [], map[], EmptyDraft, false;
    }

    /** `fetchWalks`: the upcoming walks (already in start-time order from the query) and, with
        a user whose RSVP query succeeds, the RSVP map. A failed walk query changes nothing. */
    method FetchWalks(loaded: Option<seq<PackWalk>>, userPresent: bool, rsvpRows: Option<seq<string>>)
      modifies this`walks, this`rsvps
      ensures loaded.None? ==> walks == old(walks) && rsvps == old(rsvps)
      ensures loaded.Some? ==> walks == loaded.value
      ensures loaded.Some? && userPresent && rsvpRows.Some? ==>
                (forall k :: k in rsvps <==> k in rsvpRows.value) && (forall k :: k in rsvps ==> rsvps[k])
      ensures loaded.Some? && !(userPresent && rsvpRows.Some?) ==> rsvps == old(rsvps)
    {
      if loaded.None? {
        return;
      }
      walks := loaded.value;
      if userPresent && rsvpRows.Some? {
        rsvps := BuildRsvpMap(rsvpRows.value);
      }
    }

    /** `handleScheduleWalk`: refused without a title, date or time; otherwise the inserted walk
        (id `newId`, starting at `startTime`) joins the list, which is re-sorted by start time,
        and the form is closed and cleared. A failed insert changes nothing. */
    method ScheduleWalk(newId: string, startTime: int, userPresent: bool, insertFails: bool)
      returns (scheduled: bool)
      modifies this`walks, this`draft, this`showScheduleModal
      ensures scheduled <==> CanSchedule(old(draft)) && userPresent && !insertFails
      ensures scheduled ==>
                var added := PackWalk(newId, old(draft).title, old(draft).location, startTime,
                                      old(draft).description, None);
                && SortedBy(walks, StartKey())
                && multiset(walks) == multiset(old(walks)) + multiset{added}
                && |walks| == |old(walks)| + 1
                && draft == EmptyDraft && !showScheduleModal
      ensures !scheduled ==> walks == old(walks) && draft == old(draft)
                             && showScheduleModal == old(showScheduleModal)
    {
      if !CanSchedule(draft) || !userPresent || insertFails {
        return false;
      }
      var added := PackWalk(newId, draft.title, draft.location, startTime, draft.description, None);
      walks := SortBy(walks + [added], StartKey());
      showScheduleModal := false;
      draft := EmptyDraft;
      scheduled := true;
    }

    /** `handleRSVP`: after a successful insert the walk is marked going (other entries kept)
        and its count goes up by one. */
    method Rsvp(walkId: string, userPresent: bool, insertFails: bool)
      modifies this`walks, this`rsvps
      ensures !userPresent || insertFails ==> walks == old(walks) && rsvps == old(rsvps)
      ensures userPresent && !insertFails ==>
                rsvps == old(rsvps)[walkId := true] && walks == BumpCount(old(walks), walkId)
    {
      if userPresent && !insertFails {
        rsvps := rsvps[walkId := true];
        walks := BumpCount(walks, walkId);
      }
    }
  }
}
