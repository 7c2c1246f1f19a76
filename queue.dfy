/** The dashboard's client-side playback queue (src/app/page.tsx) over the types of
    src/lib/types.ts: a `QueueState` that socket `newAudio` events extend and `playNext`
    advances, held together with the `isPlaying` flag in component state. */
module PlaybackQueue {
  import opened Wrappers

  datatype Status = Pending | Playing | Completed

  /** An uploaded clip. `duration` is a JavaScript number that the queue never inspects. */
  datatype AudioItem = AudioItem(
    id: string,
    userId: string,
    username: string,
    url: string,
    duration: real,
    createdAt: string,
    status: Status)

  /** Waiting items in arrival order and the item being played (`null` is `None`). */
  datatype QueueState = QueueState(items: seq<AudioItem>, currentlyPlaying: Option<AudioItem>)

  /** The state the dashboard starts from: `{ items: [], currentlyPlaying: null }`. */
  const Initial: QueueState := QueueState([], None)

  /** The item the upload route emits for a recorded clip: a fixed test user, a base64
      data URL, duration 0 and status `'pending'`. */
  function UploadedAudio(id: string, base64Audio: string, createdAt: string): (audio: AudioItem)
    ensures audio.id == id && audio.createdAt == createdAt && audio.status == Pending
    ensures audio.duration == 0.0
    ensures audio.userId == "test-user" && audio.username == "Test User"
    ensures "data:audio/webm;base64," <= audio.url && audio.url[|"data:audio/webm;base64,"|..] == base64Audio
  {
    AudioItem(id, "test-user", "Test User", "data:audio/webm;base64," + base64Audio, 0.0, createdAt, Pending)
  }

  /** How many items the state holds: the waiting ones plus the one playing. */
  function Count(q: QueueState): nat
  {
    |q.items| + (if q.currentlyPlaying.Some? then 1 else 0)
  }

  /** Everything the state will still play, in order: the current item first. */
  function Lineup(q: QueueState): seq<AudioItem>
  {
    (if q.currentlyPlaying.Some? then [q.currentlyPlaying.value] else []) + q.items
  }

  /** Nothing waits while nothing plays. */
  predicate IdleMeansEmpty(q: QueueState)
  {
    q.currentlyPlaying.None? ==> q.items == []
  }

  /** The `newAudio` state updater: append to `items`, but when nothing is playing the new
      item starts playing at once and `items` stays as it was. */
  function Enqueued(q: QueueState, audio: AudioItem): (r: QueueState)
    ensures q.currentlyPlaying.Some? ==> r.items == q.items + [audio] && r.currentlyPlaying == q.currentlyPlaying
    ensures q.currentlyPlaying.None? ==> r.items == q.items && r.currentlyPlaying == Some(audio)
    ensures Count(r) == Count(q) + 1
    ensures IdleMeansEmpty(q) ==> IdleMeansEmpty(r) && Lineup(r) == Lineup(q) + [audio]
  {
    var newQueue := q.(items := q.items + [audio]);
    if q.currentlyPlaying.None? then newQueue.(currentlyPlaying := Some(audio), items := q.items)
    else newQueue
  }

  /** The queue computed by `playNext`: the head of `items` starts playing and the rest keep
      their order; with nothing waiting the state is cleared, dropping the current item. */
  function Advanced(q: QueueState): (r: QueueState)
    ensures |q.items| > 0 ==> r.currentlyPlaying == Some(q.items[0]) && r.items == q.items[1..]
    ensures q.items == [] ==> r == Initial
    ensures IdleMeansEmpty(r)
    ensures IdleMeansEmpty(q) ==> Lineup(r) == if Lineup(q) == [] then [] else Lineup(q)[1..]
  {
    if |q.items| > 0 then QueueState(q.items[1..], Some(q.items[0]))
    else QueueState([], None)
  }

  /** With nothing waiting, `playNext` empties the state, and doing it again changes nothing. */
  lemma AdvanceWhenEmptyIsIdempotent(q: QueueState)
    requires q.items == []
    ensures Advanced(q) == Initial && Advanced(Advanced(q)) == Advanced(q)
  {
  }

  /** What can happen to the queue: a clip arrives over the socket, or `playNext` runs
      (the audio element ended, or the skip button was pressed). */
  datatype Event = NewAudio(audio: AudioItem) | PlayNext

  function Step(q: QueueState, e: Event): QueueState
  {
    match e
    case NewAudio(audio) => Enqueued(q, audio)
    case PlayNext => Advanced(q)
  }

  /** The state after a run of events from the initial state. */
  function Replay(events: seq<Event>): QueueState
  {
    if events == [] then Initial
    else Step(Replay(events[..|events| - 1]), events[|events| - 1])
  }

  /** The clips that arrived during a run, in arrival order. */
  function Arrivals(events: seq<Event>): seq<AudioItem>
  {
    if events == [] then []
    else
      var earlier := Arrivals(events[..|events| - 1]);
      match events[|events| - 1]
      case NewAudio(audio) => earlier + [audio]
      case PlayNext => earlier
  }

  /** The reference behaviour: a first-in-first-out line where an arrival joins the back
      and `playNext` takes the front away. */
  function Fifo(events: seq<Event>): seq<AudioItem>
  {
    if events == [] then []
    else
      var line := Fifo(events[..|events| - 1]);
      match events[|events| - 1]
      case NewAudio(audio) => line + [audio]
      case PlayNext => if line == [] then [] else line[1..]
  }

  /** Every reachable state keeps "nothing waits while nothing plays", and plays exactly
      what the reference first-in-first-out line holds, in the same order. */
  lemma {:induction false} ReplayIsFifo(events: seq<Event>)
    ensures IdleMeansEmpty(Replay(events))
    ensures Lineup(Replay(events)) == Fifo(events)
  {
    if events != [] {
      ReplayIsFifo(events[..|events| - 1]);
    }
  }

  /** What a run still holds is the latest stretch of its arrivals: nothing is reordered,
      and nothing arrives that was not submitted. */
  lemma {:induction false} FifoIsSuffixOfArrivals(events: seq<Event>)
    ensures |Fifo(events)| <= |Arrivals(events)|
    ensures Fifo(events) == Arrivals(events)[|Arrivals(events)| - |Fifo(events)|..]
  {
    if events != [] {
      var prefix := events[..|events| - 1];
      FifoIsSuffixOfArrivals(prefix);
      var line, arrived := Fifo(prefix), Arrivals(prefix);
      match events[|events| - 1]
      case NewAudio(audio) =>
        assert (arrived + [audio])[|arrived| + 1 - (|line| + 1)..] == arrived[|arrived| - |line|..] + [audio];
      case PlayNext =>
        if line != [] {
          assert arrived[|arrived| - |line|..][1..] == arrived[|arrived| - (|line| - 1)..];
        }
    }
  }

  /** Neither transition touches an item's `status`: if every clip arrives `'pending'`,
      every item the queue ever holds, playing or waiting, is still `'pending'`. */
  lemma {:induction false} ArrivalsStayPending(events: seq<Event>)
    requires forall i :: 0 <= i < |Arrivals(events)| ==> Arrivals(events)[i].status == Pending
    ensures forall i :: 0 <= i < |Lineup(Replay(events))| ==> Lineup(Replay(events))[i].status == Pending
  {
    ReplayIsFifo(events);
    FifoIsSuffixOfArrivals(events);
    var arrived := Arrivals(events);
    var line := Lineup(Replay(events));
    forall i | 0 <= i < |line|
      ensures line[i].status == Pending
    {
      assert line[i] == arrived[|arrived| - |line| + i];
    }
  }

  /** Three uploads arrive at an idle dashboard and the first clip ends: the second clip
      plays, the third waits, and all three carry the upload route's `'pending'` status. */
  lemma UploadsPlayInArrivalOrder(a1: AudioItem, a2: AudioItem, a3: AudioItem)
    requires a1 == UploadedAudio("a1", "", "t1") && a2 == UploadedAudio("a2", "", "t2")
    requires a3 == UploadedAudio("a3", "", "t3")
    ensures Replay([NewAudio(a1)]) == QueueState([], Some(a1))
    ensures Replay([NewAudio(a1), NewAudio(a2), NewAudio(a3)]) == QueueState([a2, a3], Some(a1))
    ensures Replay([NewAudio(a1), NewAudio(a2), NewAudio(a3), PlayNext]) == QueueState([a3], Some(a2))
    ensures a2.status == Pending && a3.status == Pending
  {
    var e := [NewAudio(a1), NewAudio(a2), NewAudio(a3), PlayNext];
    assert e[..3][..2][..1] == [NewAudio(a1)];
    assert e[..3][..2] == [NewAudio(a1), NewAudio(a2)];
    assert e[..3] == [NewAudio(a1), NewAudio(a2), NewAudio(a3)];
  }

  /** The dashboard component's queue state (`queue`, `setQueue`) and play flag
      (`isPlaying`, `setIsPlaying`). */
  class Player {
    var queue: QueueState
    var isPlaying: bool

    ghost predicate Valid()
      reads this
    {
      IdleMeansEmpty(queue)
    }

    constructor ()
      ensures Valid() && queue == Initial && !isPlaying
    {
      queue := QueueState([], None);
      isPlaying := false;
    }

    /** The `newAudio` socket handler. When nothing was playing it also schedules, 100 ms
        later, the start of the new item; that callback is `PlayScheduled`, which sets
        `isPlaying` as `playAudio` does. The handler itself leaves `isPlaying` alone. */
    method OnNewAudio(audio: AudioItem)
      requires Valid()
      modifies this
      ensures Valid()
      ensures queue == Enqueued(old(queue), audio) && isPlaying == old(isPlaying)
      ensures Lineup(queue) == old(Lineup(queue)) + [audio]
    {
      var prev := queue;
      var newQueue := prev.(items := prev.items + [audio]);
      if prev.currentlyPlaying.None? {
        newQueue := newQueue.(currentlyPlaying := Some(audio));
        newQueue := newQueue.(items := prev.items);
      }
      queue := newQueue;
    }

    /** `playNext`. `played` is what the audio element's `play()` did with the new item:
        `Some(true)` when it resolved, `Some(false)` when it threw, `None` when there was
        no element or no promise, in which case `isPlaying` is left as it was. */
    method PlayNext(played: Option<bool>)
      requires Valid()
      modifies this
      ensures Valid()
      ensures queue == Advanced(old(queue))
      ensures Lineup(queue) == if old(Lineup(queue)) == [] then [] else old(Lineup(queue))[1..]
      ensures old(queue.items) == [] ==> !isPlaying
      ensures old(queue.items) != [] ==> isPlaying == (if played.Some? then played.value else old(isPlaying))
    {
      if |queue.items| > 0 {
        var nextItem := queue.items[0];
        var newQueue := QueueState(queue.items[1..], Some(nextItem));
        queue := newQueue;
        if played.Some? {
          isPlaying := played.value;
        }
      } else {
        queue := QueueState([], None);
        isPlaying := false;
      }
    }

    /** The callback `newAudio` schedules with `setTimeout` when nothing was playing: it
        points the audio element at the item and runs `playAudio`. `played` is what
        `play()` did: `Some(true)` when it resolved, `Some(false)` when it threw, `None` when
        there was no element or no promise. The queue is not touched. */
    method PlayScheduled(played: Option<bool>)
      requires Valid()
      modifies this
      ensures Valid()
      ensures queue == old(queue)
      ensures isPlaying == if played.Some? then played.value else old(isPlaying)
    {
      if played.Some? {
        isPlaying := played.value;
      }
    }
  }
}
