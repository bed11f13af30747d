/** The play page (src/pages/PlayPage.jsx): daily missions, claiming their rewards and the
    "all missions completed" message. */
module PlayPage {
  import opened Seqs
  import opened MissionCard

  datatype Mission = Mission(id: int, title: string, reward: int, progress: real, total: real,
                             claimed: bool)

  /** The page's starting missions. */
  const InitialMissions: seq<Mission> := [
    Mission(1, "Morning Sniffari", 50, 1.0, 1.0, false),
    Mission(2, "Pack Walk", 100, 2.0, 3.0, false),
    Mission(3, "Distance Challenge", 200, 1.5, 3.0, false)
  ]

  /** Of the starting missions only the first can be claimed. */
  lemma InitialMissionsClaimable()
    ensures ShowsClaim(InitialMissions[0].progress, InitialMissions[0].total)
    ensures !ShowsClaim(InitialMissions[1].progress, InitialMissions[1].total)
    ensures !ShowsClaim(InitialMissions[2].progress, InitialMissions[2].total)
  {
  }

  /** The total reward of the missions with this id: what claiming it adds to the balance. */
  function RewardOf(ms: seq<Mission>, id: int): int {
    if ms == [] then 0
    else RewardOf(ms[..|ms| - 1], id) + (if ms[|ms| - 1].id == id then ms[|ms| - 1].reward else 0)
  }

  /** Ids are unique in the page's list. */
  ghost predicate UniqueIds(ms: seq<Mission>) {
    forall i, j :: 0 <= i < j < |ms| ==> ms[i].id != ms[j].id
  }

  /** With unique ids the reward added is that of the mission with the id, and 0 for an unknown
      id. */
  lemma {:induction false} RewardOfUnique(ms: seq<Mission>, id: int)
    requires UniqueIds(ms)
    ensures (forall i :: 0 <= i < |ms| ==> ms[i].id != id) ==> RewardOf(ms, id) == 0
    ensures forall k :: 0 <= k < |ms| && ms[k].id == id ==> RewardOf(ms, id) == ms[k].reward
  {
    if ms != [] {
      var init := ms[..|ms| - 1];
      assert UniqueIds(init);
      RewardOfUnique(init, id);
      if ms[|ms| - 1].id == id {
        assert forall i :: 0 <= i < |init| ==> init[i].id != id by {
          forall i | 0 <= i < |init| ensures init[i].id != id {
            assert ms[i] == init[i];
          }
        }
      }
    }
  }

  /** The missions still shown: the unclaimed ones, in order. */
  function VisibleMissions(ms: seq<Mission>): seq<Mission> {
    Filter(ms, (m: Mission) => !m.claimed)
  }

  /** `missions.every(m => m.claimed)`. */
  predicate AllClaimed(ms: seq<Mission>) {
    forall i :: 0 <= i < |ms| ==> ms[i].claimed
  }

  /** The visible missions are exactly the unclaimed ones, kept in order, and "All missions
      completed" shows exactly when none is visible. */
  lemma VisibleMissionsSpec(ms: seq<Mission>)
    ensures forall m :: m in VisibleMissions(ms) <==> m in ms && !m.claimed
    ensures Subseq(VisibleMissions(ms), ms)
    ensures AllClaimed(ms) <==> VisibleMissions(ms) == []
  {
    var f := (m: Mission) => !m.claimed;
    FilterMembers(ms, f);
    FilterSubseq(ms, f);
    FilterEmpty(ms, f);
  }

  class Page {
    var bones: int
    var missions: seq<Mission>

    constructor ()
      ensures bones == 1250 && missions == InitialMissions
    {
      bones, missions := 1250, InitialMissions;
    }

    /** `handleClaim`: walk the list, marking every mission with this id claimed and adding its
        reward to the balance; every other mission, and the order, stay as they were. */
    method Claim(id: int)
      modifies this
      ensures |missions| == |old(missions)|
      ensures forall i :: 0 <= i < |missions| ==>
                missions[i] == if old(missions)[i].id == id then old(missions)[i].(claimed := true)
                               else old(missions)[i]
      ensures bones == old(bones) + RewardOf(old(missions), id)
    {
      var ms := missions;
      var next: seq<Mission> := [];
      for i := 0 to |ms|
        invariant |next| == i
        invariant forall j :: 0 <= j < i ==>
                    next[j] == if ms[j].id == id then ms[j].(claimed := true) else ms[j]
        invariant bones == old(bones) + RewardOf(ms[..i], id)
      {
        assert ms[..i + 1][..i] == ms[..i];
        if ms[i].id == id {
          bones := bones + ms[i].reward;
          next := next + [ms[i].(claimed := true)];
        } else {
          next := next + [ms[i]];
        }
      }
      assert ms[..|ms|] == ms;
      missions := next;
    }
  }

  /** Claiming the completed starting mission adds its 50 bones and hides it, leaving two. */
  method ClaimMorningSniffari() returns (bones: int, visible: nat)
    ensures bones == 1300 && visible == 2
  {
    var page := new Page();
    page.Claim(1);
    assert UniqueIds(InitialMissions);
    RewardOfUnique(InitialMissions, 1);
    bones := page.bones;
    var v := VisibleMissions(page.missions);
    var m0 := InitialMissions[0].(claimed := true);
    assert page.missions == [m0, InitialMissions[1], InitialMissions[2]];
    var f := (m: Mission) => !m.claimed;
    var rest := [InitialMissions[1], InitialMissions[2]];
    assert page.missions[1..] == rest && rest[1..] == [InitialMissions[2]];
    assert Filter([InitialMissions[2]], f) == [InitialMissions[2]];
    assert Filter(rest, f) == rest;
    assert v == Filter(rest, f);
    visible := |v|;
  }
}
