/** The community feed (src/components/Feed.jsx): relative post times and creating a post. */
module Feed {
  import opened Common
  import opened Text
  import opened Store

  const Minute: int := 60
  const Hour: int := 3600
  const Day: int := 86400

  /** How long ago a post was made, as `formatTime` words it. */
  datatype Ago = JustNow | MinutesAgo(minutes: nat) | HoursAgo(hours: nat) | DaysAgo(days: nat)

  /** `Math.floor((now - date) / 1000)` for instants in milliseconds. */
  function ElapsedSeconds(dateMs: int, nowMs: int): (d: int)
    ensures d * 1000 <= nowMs - dateMs < d * 1000 + 1000
  {
    (nowMs - dateMs) / 1000
  }

  /** The bucket for an elapsed time of `diff` whole seconds; a post from the future (negative
      difference) counts as just now. */
  function Bucket(diff: int): (a: Ago)
    ensures a == JustNow <==> diff < Minute
    ensures a.MinutesAgo? <==> Minute <= diff < Hour
    ensures a.HoursAgo? <==> Hour <= diff < Day
    ensures a.DaysAgo? <==> Day <= diff
    ensures a.MinutesAgo? ==> a.minutes * Minute <= diff < (a.minutes + 1) * Minute
    ensures a.HoursAgo? ==> a.hours * Hour <= diff < (a.hours + 1) * Hour
    ensures a.DaysAgo? ==> a.days * Day <= diff < (a.days + 1) * Day
  {
    if diff < Minute then JustNow
    else if diff < Hour then MinutesAgo(diff / Minute)
    else if diff < Day then HoursAgo(diff / Hour)
    else DaysAgo(diff / Day)
  }

  /** The counts shown are never 0: at least 1 minute, hour or day, and a minute count stays
      below 60 and an hour count below 24. */
  lemma BucketCounts(diff: int)
    ensures Bucket(diff).MinutesAgo? ==> 1 <= Bucket(diff).minutes < 60
    ensures Bucket(diff).HoursAgo? ==> 1 <= Bucket(diff).hours < 24
    ensures Bucket(diff).DaysAgo? ==> Bucket(diff).days >= 1
  {
  }

  /** The unit letter of a bucket other than "just now". */
  function UnitLetter(a: Ago): char
    requires !a.JustNow?
  {
    match a
    case MinutesAgo(_) => 'm'
    case HoursAgo(_) => 'h'
    case DaysAgo(_) => 'd'
  }

  function Count(a: Ago): nat
    requires !a.JustNow?
  {
    match a
    case MinutesAgo(n) => n
    case HoursAgo(n) => n
    case DaysAgo(n) => n
  }

  /** "Just now", or the count, the unit letter and " ago" ("5m ago", "2h ago", "3d ago"). */
  function Render(a: Ago): string {
    if a.JustNow? then "Just now" else NatToString(Count(a)) + [UnitLetter(a)] + " ago"
  }

  /** `formatTime`. */
  function FormatTime(dateMs: int, nowMs: int): string {
    Render(Bucket(ElapsedSeconds(dateMs, nowMs)))
  }

  /** The words `formatTime` shows for a post made at `dateMs`, seen at `nowMs`. */
  lemma FormatTimeText(dateMs: int, nowMs: int)
    ensures var diff := ElapsedSeconds(dateMs, nowMs);
            var t := FormatTime(dateMs, nowMs);
            && (diff < Minute ==> t == "Just now")
            && (Minute <= diff < Hour ==> t == NatToString(diff / Minute) + "m ago")
            && (Hour <= diff < Day ==> t == NatToString(diff / Hour) + "h ago")
            && (Day <= diff ==> t == NatToString(diff / Day) + "d ago")
  {
    var diff := ElapsedSeconds(dateMs, nowMs);
    if Minute <= diff < Hour {
      assert NatToString(diff / Minute) + ['m'] + " ago" == NatToString(diff / Minute) + "m ago";
    } else if Hour <= diff < Day {
      assert NatToString(diff / Hour) + ['h'] + " ago" == NatToString(diff / Hour) + "h ago";
    } else if Day <= diff {
      assert NatToString(diff / Day) + ['d'] + " ago" == NatToString(diff / Day) + "d ago";
    }
  }

  lemma NumberSuffix(n: nat, m: nat, u: char, v: char)
    requires NatToString(n) + [u] + " ago" == NatToString(m) + [v] + " ago"
    ensures n == m && u == v
  {
    var a, b := NatToString(n) + [u] + " ago", NatToString(m) + [v] + " ago";
    assert |NatToString(n)| == |NatToString(m)|;
    assert a[..|a| - 5] == NatToString(n) && b[..|b| - 5] == NatToString(m);
    assert a[|a| - 5] == u && b[|b| - 5] == v;
    ParseNatToString(n);
    ParseNatToString(m);
  }

  lemma RenderLast(a: Ago)
    ensures |Render(a)| > 0
    ensures Render(a)[|Render(a)| - 1] == if a.JustNow? then 'w' else 'o'
  {
  }

  /** Different buckets read differently: the text determines the bucket. */
  lemma RenderInjective(a: Ago, b: Ago)
    requires Render(a) == Render(b)
    ensures a == b
  {
    RenderLast(a);
    RenderLast(b);
    if !a.JustNow? && !b.JustNow? {
      NumberSuffix(Count(a), Count(b), UnitLetter(a), UnitLetter(b));
    }
  }

  datatype FeedPost = FeedPost(id: string, user: UserId, text: string, kind: string)

  class Page {
    const userId: Option<UserId>
    var posts: seq<FeedPost>
    var newPostText: string
    var showNewPostModal: bool
    var posting: bool

    constructor (userId: Option<UserId>)
      ensures this.userId == userId && posts == [] && newPostText == []
      ensures !showNewPostModal && !posting
    {
      this.userId := userId;
      posts, newPostText, showNewPostModal, posting := [], [], false, false;
    }

    /** `handleCreatePost`: whitespace-only text is not posted; otherwise the inserted row
        (given the id `newId` by the table) is put first, the input cleared and the dialog
        closed. A failed insert leaves the list, the text and the dialog as they were. */
    method CreatePost(newId: string, insertFails: bool) returns (created: bool)
      modifies this`posts, this`newPostText, this`showNewPostModal, this`posting
      ensures posting == (IsBlank(old(newPostText)) && old(posting))
      ensures created <==> !IsBlank(old(newPostText)) && userId.Some? && !insertFails
      ensures created ==>
                posts == [FeedPost(newId, userId.value, old(newPostText), "manual")] + old(posts)
                && newPostText == [] && !showNewPostModal
      ensures !created ==> posts == old(posts) && newPostText == old(newPostText)
                           && showNewPostModal == old(showNewPostModal)
    {
      TrimEmptyIffBlank(newPostText);
      if Trim(newPostText) == [] {
        return false;
      }
      posting := true;
      if userId.None? || insertFails {
        posting := false;
        return false;
      }
      posts := [FeedPost(newId, userId.value, newPostText, "manual")] + posts;
      newPostText := [];
      showNewPostModal := false;
      posting := false;
      created := true;
    }
  }
}
