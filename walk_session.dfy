/** The walk session (src/hooks/useWalkSession.js): an idle -> walking -> idle state machine that
    turns position samples and one-second ticks into a distance, a duration and a path. */
module WalkSession {
  import opened Common
  import opened Geo

  /** A step must cover more than this many metres to count (GPS jitter). */
  const MinStepMeters: real := 5.0
  /** A step implying this speed or more, in m/s, is a teleport glitch. */
  const MaxSpeed: real := 25.0
  /** The fallback watcher adds a step only when it is longer than this. */
  const WatchMinStepMeters: real := 2.0

  /** The last position the session measures from. The sample handler stores a position with
      its time stamp; the fallback watcher (and line 71 of the source) store the bare position. */
  datatype Anchor = Stamped(pos: Point, time: int) | Bare(pos: Point)

  /** What the sample handler did with one sample. `Faulted` is the handler throwing because
      the anchor has no `pos`/`time` fields (a bare position). */
  datatype SampleOutcome = Ignored | Anchored | Accepted | Rejected | Faulted

  /** The summary `endWalk` returns. */
  datatype Summary = Summary(startedAt: Option<int>, endedAt: int, distanceMeters: int,
                             durationSeconds: nat, path: seq<Point>)

  /** The implied speed in m/s of a step of `d` metres taken `dtMs` milliseconds after the
      anchor; taken as 0 when no time has passed. */
  function Speed(d: real, dtMs: int): real {
    var dt := dtMs as real / 1000.0;
    if dt > 0.0 then d / dt else 0.0
  }

  /** The smart filter: more than 5 m and under 25 m/s. */
  predicate Accepts(d: real, dtMs: int) {
    d > MinStepMeters && Speed(d, dtMs) < MaxSpeed
  }

  /** The filter in integer-free terms: a step is kept exactly when it is longer than 5 m and
      either no time has passed or it covers less than 25 m per second elapsed. */
  lemma AcceptsExactly(d: real, dtMs: int)
    ensures Accepts(d, dtMs) <==> d > 5.0 && (dtMs <= 0 || d * 1000.0 < 25.0 * dtMs as real)
  {
    if dtMs > 0 {
      var dt := dtMs as real / 1000.0;
      var v := d / dt;
      assert v * dt == d;
      assert d * 1000.0 == v * dtMs as real;
      if v < 25.0 {
        assert v * dtMs as real < 25.0 * dtMs as real;
      } else {
        assert v * dtMs as real >= 25.0 * dtMs as real;
      }
    }
  }

  /** A sample 1000 m away one second later (1000 m/s) is a teleport and is dropped. */
  lemma TeleportRejected()
    ensures !Accepts(1000.0, 1000)
  {
    AcceptsExactly(1000.0, 1000);
  }

  /** A sample 600 m away a minute later (10 m/s, a tunnel) is kept. */
  lemma TunnelAccepted()
    ensures Accepts(600.0, 60000)
  {
    AcceptsExactly(600.0, 60000);
  }

  /** Steps of at most 5 m are jitter whatever the time. */
  lemma JitterRejected(d: real, dtMs: int)
    requires d <= 5.0
    ensures !Accepts(d, dtMs)
  {
  }

  /** What the sample handler decides for a sample at `p` arriving at `now` while walking. */
  function Judge(last: Option<Anchor>, p: Point, now: int, dist: Distance): SampleOutcome {
    match last
    case None => Anchored
    case Some(Bare(_)) => Faulted
    case Some(Stamped(q, t)) => if Accepts(dist(q, p), now - t) then Accepted else Rejected
  }

  /** With a stamped anchor a sample is accepted exactly when it moved more than 5 m and its
      implied speed is under 25 m/s, a sample with no elapsed time counting as speed 0. */
  lemma JudgeStamped(q: Point, t: int, p: Point, now: int, dist: Distance)
    ensures Judge(Some(Stamped(q, t)), p, now, dist) == Accepted <==>
            dist(q, p) > 5.0 && (now <= t || dist(q, p) * 1000.0 < 25.0 * (now - t) as real)
    ensures Judge(Some(Stamped(q, t)), p, now, dist) != Accepted ==>
            Judge(Some(Stamped(q, t)), p, now, dist) == Rejected
  {
    AcceptsExactly(dist(q, p), now - t);
  }

  class Session {
    /** The great-circle distance in metres. */
    const dist: Distance
    var isWalking: bool
    var elapsedSeconds: nat
    var distanceMeters: real
    var coords: seq<Point>
    var startTime: Option<int>
    /** `lastPositionRef`. */
    var last: Option<Anchor>
    /** Whether the one-second interval (`timerRef`) is running. */
    var timerRunning: bool
    /** Whether the fallback geolocation watch (`watchIdRef`) is active. */
    var watching: bool

    ghost predicate Valid()
      reads this
    {
      && (timerRunning <==> isWalking)
      && (watching ==> isWalking)
      && distanceMeters >= 0.0
      && (last.None? ==> coords == [])
    }

    constructor (dist: Distance)
      ensures Valid() && this.dist == dist
      ensures !isWalking && elapsedSeconds == 0 && distanceMeters == 0.0 && coords == []
      ensures startTime.None? && last.None? && !watching
    {
      this.dist := dist;
      isWalking, elapsedSeconds, distanceMeters, coords := false, 0, 0.0, [];
      startTime, last, timerRunning, watching := None, None, false, false;
    }

    /** `startWalk`, with the anchor reset to none (see `StartAsWritten` for line 71 as it
        stands). The internal watcher starts only when no external position is supplied. */
    method Start(externalPosition: Option<Point>, now: int, hasGeolocation: bool)
      requires Valid() && !isWalking
      modifies this
      ensures Valid()
      ensures isWalking && timerRunning && startTime == Some(now)
      ensures elapsedSeconds == 0 && distanceMeters == 0.0 && coords == [] && last.None?
      ensures watching == (externalPosition.None? && hasGeolocation)
    {
      isWalking, startTime := true, Some(now);
      elapsedSeconds, distanceMeters, coords := 0, 0.0, [];
      last := None;
      timerRunning := true;
      watching := externalPosition.None? && hasGeolocation;
    }

    /** `startWalk` exactly as line 71 writes it: the anchor becomes the bare external position,
        a shape the sample handler cannot read. */
    method StartAsWritten(externalPosition: Option<Point>, now: int, hasGeolocation: bool)
      requires Valid() && !isWalking
      modifies this
      ensures Valid()
      ensures isWalking && timerRunning && startTime == Some(now)
      ensures elapsedSeconds == 0 && distanceMeters == 0.0 && coords == []
      ensures last == if externalPosition.Some? then Some(Bare(externalPosition.value)) else None
      ensures watching == (externalPosition.None? && hasGeolocation)
    {
      isWalking, startTime := true, Some(now);
      elapsedSeconds, distanceMeters, coords := 0, 0.0, [];
      last := if externalPosition.Some? then Some(Bare(externalPosition.value)) else None;
      timerRunning := true;
      watching := externalPosition.None? && hasGeolocation;
    }

    /** The external-position effect, run with the current position at time `now` (ms). */
    method OnSample(externalPosition: Option<Point>, now: int) returns (outcome: SampleOutcome)
      requires Valid()
      modifies this
      ensures Valid()
      ensures isWalking == old(isWalking) && elapsedSeconds == old(elapsedSeconds)
      ensures startTime == old(startTime) && timerRunning == old(timerRunning)
      ensures watching == old(watching)
      ensures outcome == if !old(isWalking) || externalPosition.None? then Ignored
                         else Judge(old(last), externalPosition.value, now, dist)
      ensures outcome == Anchored ==>
                coords == [externalPosition.value] && distanceMeters == old(distanceMeters)
                && last == Some(Stamped(externalPosition.value, now))
      ensures outcome == Accepted ==>
                distanceMeters == old(distanceMeters) + dist(old(last).value.pos, externalPosition.value)
                && coords == old(coords) + [externalPosition.value]
                && last == Some(Stamped(externalPosition.value, now))
      ensures outcome in {Ignored, Rejected, Faulted} ==>
                distanceMeters == old(distanceMeters) && coords == old(coords) && last == old(last)
      ensures distanceMeters >= old(distanceMeters) && old(coords) <= coords
    {
      if !isWalking || externalPosition.None? {
        return Ignored;
      }
      var p := externalPosition.value;
      outcome := Judge(last, p, now, dist);
      match last {
        case None =>
          coords := [p];
          last := Some(Stamped(p, now));
        case Some(Bare(_)) =>
        case Some(Stamped(q, t)) =>
          if outcome == Accepted {
            distanceMeters := distanceMeters + dist(q, p);
            coords := coords + [p];
            last := Some(Stamped(p, now));
          }
      }
    }

    /** The fallback watcher's callback: every point is appended; the step is added only when
        it exceeds 2 m; the anchor always moves. A stamped anchor has no index 0, so the
        distance computed from it is NaN and is never added. */
    method OnWatchSample(p: Point) returns (added: bool)
      requires Valid()
      modifies this
      ensures Valid()
      ensures isWalking == old(isWalking) && elapsedSeconds == old(elapsedSeconds)
      ensures startTime == old(startTime) && timerRunning == old(timerRunning)
      ensures watching == old(watching)
      ensures !old(watching) ==> !added && distanceMeters == old(distanceMeters)
                                 && coords == old(coords) && last == old(last)
      ensures old(watching) ==> coords == old(coords) + [p] && last == Some(Bare(p))
      ensures added <==> old(watching) && old(last).Some? && old(last).value.Bare?
                         && dist(old(last).value.pos, p) > WatchMinStepMeters
      ensures distanceMeters == if added then old(distanceMeters) + dist(old(last).value.pos, p)
                                else old(distanceMeters)
    {
      added := false;
      if !watching {
        return;
      }
      coords := coords + [p];
      if last.Some? && last.value.Bare? {
        var d := dist(last.value.pos, p);
        if d > WatchMinStepMeters {
          distanceMeters := distanceMeters + d;
          added := true;
        }
      }
      last := Some(Bare(p));
    }

    /** One firing of the one-second interval. */
    method Tick()
      requires Valid()
      modifies this`elapsedSeconds
      ensures Valid()
      ensures elapsedSeconds == old(elapsedSeconds) + (if timerRunning then 1 else 0)
    {
      if timerRunning {
        elapsedSeconds := elapsedSeconds + 1;
      }
    }

    /** `endWalk`: stops the timer and the watcher, returns the summary, and goes idle. */
    method End(now: int) returns (summary: Summary)
      requires Valid()
      modifies this
      ensures Valid()
      ensures summary == Summary(old(startTime), now, Round(old(distanceMeters)),
                                 old(elapsedSeconds), old(coords))
      ensures !isWalking && !timerRunning && !watching
      ensures elapsedSeconds == old(elapsedSeconds) && distanceMeters == old(distanceMeters)
      ensures coords == old(coords) && startTime == old(startTime) && last == old(last)
    {
      watching, timerRunning := false, false;
      summary := Summary(startTime, now, Round(distanceMeters), elapsedSeconds, coords);
      isWalking := false;
    }
  }

  /** After a corrected start, the first sample becomes the anchor and the whole path. */
  method FirstSampleAfterStart(dist: Distance, position: Point, start: int, p: Point, now: int)
    returns (outcome: SampleOutcome, path: seq<Point>)
    ensures outcome == Anchored && path == [p]
  {
    var s := new Session(dist);
    s.Start(Some(position), start, true);
    outcome := s.OnSample(Some(p), now);
    path := s.coords;
  }

  /** As written, a walk started with a known position faults on its first sample. */
  method FirstSampleAfterStartAsWritten(dist: Distance, position: Point, start: int, p: Point, now: int)
    returns (outcome: SampleOutcome)
    ensures outcome == Faulted
  {
    var s := new Session(dist);
    s.StartAsWritten(Some(position), start, true);
    outcome := s.OnSample(Some(p), now);
  }

  /** As written, a walk started with a known position records no distance and no path,
      whatever samples follow. */
  method WalkAsWritten(dist: Distance, position: Point, start: int, samples: seq<(Point, int)>)
    returns (distance: real, path: seq<Point>)
    ensures distance == 0.0 && path == []
  {
    var s := new Session(dist);
    s.StartAsWritten(Some(position), start, true);
    for i := 0 to |samples|
      invariant s.Valid() && s.isWalking
      invariant s.last == Some(Bare(position)) && s.distanceMeters == 0.0 && s.coords == []
    {
      var _ := s.OnSample(Some(samples[i].0), samples[i].1);
    }
    distance, path := s.distanceMeters, s.coords;
  }

  /** Start; a sample at the origin; a sample about 1113 m east a minute later (18.6 m/s);
      sixty ticks; end. The summary shows 60 s, 1113 m and a two-point path. */
  method EndToEndWalk() returns (summary: Summary)
    ensures summary.durationSeconds == 60 && summary.distanceMeters == 1113
    ensures |summary.path| == 2
  {
    var origin, east := Point(0.0, 0.0), Point(0.0, 0.01);
    var s := new Session((p: Point, q: Point) => if p == q then 0.0 else 1113.2);
    s.Start(Some(origin), 0, true);
    var first := s.OnSample(Some(origin), 0);
    AcceptsExactly(1113.2, 60000);
    var second := s.OnSample(Some(east), 60000);
    for i := 0 to 60
      invariant s.Valid() && s.timerRunning && s.elapsedSeconds == i
      invariant s.distanceMeters == 1113.2 && s.coords == [origin, east]
    {
      s.Tick();
    }
    summary := s.End(61000);
  }
}
