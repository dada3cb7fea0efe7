/** The contest-phase display of the frontend's ContestDuration component: which
    captions and countdowns are shown for each contest status, and how one
    countdown's remaining time is written out. */
module ContestDuration {
  import opened Decimal

  /** The contest lifecycle as the contract reports it. `Other` stands for any
      status number that is none of the five named codes. */
  datatype ContestStatus =
    | Inactive
    | OpenForParticipants
    | VotingStarted
    | Ended
    | Canceled
    | Other(code: int)

  /** The four lifecycle timestamps the contract reports, in seconds. */
  datatype Lifecycle = Lifecycle(
    entryStartTime: int,
    entryEndTime: int,
    votingStartTime: int,
    votingEndTime: int)

  /** One displayed piece: a fixed caption, or a countdown to an instant in
      milliseconds. */
  datatype Item = Label(text: string) | Countdown(targetMs: int)

  /** The components a countdown shows, in the order it shows them. */
  datatype Unit = Days | Hours | Minutes

  const TimeIsUp: string := "Time is up!"

  const OpenInCaption: string := "Contest is open in:"
  const ParticipationEndsCaption: string := "Contest participation ends in:"
  const VotingStartsCaption: string := "Voting starts in:"
  const VotingEndsCaption: string := "Voting ends in:"
  const CanceledCaption: string := "Contest has been canceled."
  const EndedCaption: string := "Contest has ended."

  function Suffix(u: Unit): string {
    match u
    case Days => " days "
    case Hours => " hrs "
    case Minutes => " mins "
  }

  /** The text one component contributes: nothing when its value is zero (the
      value is falsy), otherwise the number followed by its unit. */
  function Part(n: int, u: Unit): string {
    if n != 0 then IntToString(n) + Suffix(u) else ""
  }

  /** The countdown renderer: "Time is up!" once the countdown has completed,
      otherwise the non-zero days, hours and minutes in that order. Seconds are
      never shown. */
  function Render(days: int, hours: int, minutes: int, completed: bool): (text: string)
    ensures completed ==> text == TimeIsUp
    ensures !completed && days == 0 && hours == 0 && minutes == 0 ==> text == ""
  {
    if completed then TimeIsUp
    else Part(days, Days) + Part(hours, Hours) + Part(minutes, Minutes)
  }

  /** The instant a countdown targets: the contract's seconds times 1000. The
      result is a whole number of seconds and converts back exactly. */
  function ToMillis(seconds: int): (ms: int)
    ensures ms % 1000 == 0 && ms / 1000 == seconds
  {
    seconds * 1000
  }

  /** The four timestamps, in seconds, a countdown may target. */
  function Deadlines(t: Lifecycle): seq<int> {
    [t.entryStartTime, t.entryEndTime, t.votingStartTime, t.votingEndTime]
  }

  predicate HasCountdown(items: seq<Item>) {
    exists i :: 0 <= i < |items| && items[i].Countdown?
  }

  predicate IsLive(status: ContestStatus) {
    status.Inactive? || status.OpenForParticipants? || status.VotingStarted?
  }

  /** The display for a status: captions, each followed by the countdown it
      announces while the contest is still running. */
  function Message(status: ContestStatus, t: Lifecycle): (items: seq<Item>)
    ensures items == [] <==> status.Other?
    ensures HasCountdown(items) <==> IsLive(status)
    ensures forall i :: 0 <= i < |items| && items[i].Countdown? ==>
      0 < i && items[i - 1].Label?
    ensures forall i :: 0 <= i < |items| && items[i].Countdown? ==>
      items[i].targetMs % 1000 == 0 && items[i].targetMs / 1000 in Deadlines(t)
  {
    var items := match status
    case Inactive =>
      [Label(OpenInCaption), Countdown(ToMillis(t.entryStartTime))]
    case OpenForParticipants =>
      [Label(ParticipationEndsCaption), Countdown(ToMillis(t.entryEndTime)),
       Label(VotingStartsCaption), Countdown(ToMillis(t.votingStartTime))]
    case VotingStarted =>
      [Label(VotingEndsCaption), Countdown(ToMillis(t.votingEndTime))]
    case Canceled =>
      [Label(CanceledCaption)]
    case Ended =>
      [Label(EndedCaption)]
    case Other(_) =>
      [];
    assert IsLive(status) ==> items[1].Countdown?;
    items
  }

  /** The countdown targets of a display, in the order they are shown. */
  function Targets(items: seq<Item>): (ms: seq<int>)
    ensures |ms| <= |items|
    ensures |ms| == 0 <==> !HasCountdown(items)
  {
    if items == [] then []
    else
      var rest := Targets(items[1..]);
      assert forall i :: 1 <= i < |items| ==> items[i] == items[1..][i - 1];
      if items[0].Countdown? then [items[0].targetMs] + rest else rest
  }

  /** Each status shows exactly these items. */
  lemma MessageTable(t: Lifecycle, code: int)
    ensures Message(Inactive, t) ==
      [Label("Contest is open in:"), Countdown(t.entryStartTime * 1000)]
    ensures Message(OpenForParticipants, t) ==
      [Label("Contest participation ends in:"), Countdown(t.entryEndTime * 1000),
       Label("Voting starts in:"), Countdown(t.votingStartTime * 1000)]
    ensures Message(VotingStarted, t) ==
      [Label("Voting ends in:"), Countdown(t.votingEndTime * 1000)]
    ensures Message(Canceled, t) == [Label("Contest has been canceled.")]
    ensures Message(Ended, t) == [Label("Contest has ended.")]
    ensures Message(Other(code), t) == []
  {
  }

  /** The countdowns of each status target the timestamps still ahead in its
      phase, converted to milliseconds, and no others. */
  lemma MessageTargets(status: ContestStatus, t: Lifecycle)
    ensures Targets(Message(status, t)) ==
      match status
      case Inactive => [ToMillis(t.entryStartTime)]
      case OpenForParticipants => [ToMillis(t.entryEndTime), ToMillis(t.votingStartTime)]
      case VotingStarted => [ToMillis(t.votingEndTime)]
      case _ => []
  {
    var items := Message(status, t);
    if status.OpenForParticipants? {
      assert items[3..][1..] == [];
      assert Targets(items[3..]) == [items[3].targetMs];
      assert items[2..][1..] == items[3..];
      assert Targets(items[2..]) == [items[3].targetMs];
      assert items[1..][1..] == items[2..];
      assert Targets(items[1..]) == [items[1].targetMs, items[3].targetMs];
    } else if status.Inactive? || status.VotingStarted? {
      assert items[1..][1..] == [];
    }
  }

  /** When the lifecycle runs in order, the countdowns shown are in
      chronological order too. */
  lemma TargetsChronological(status: ContestStatus, t: Lifecycle)
    requires t.entryStartTime <= t.entryEndTime <= t.votingStartTime <= t.votingEndTime
    ensures var ms := Targets(Message(status, t));
      forall i, j :: 0 <= i < j < |ms| ==> ms[i] <= ms[j]
  {
    MessageTargets(status, t);
  }

  /** A non-empty display tells the named statuses apart: two statuses that
      show the same items are the same status. */
  lemma MessageDeterminesStatus(s1: ContestStatus, t1: Lifecycle, s2: ContestStatus, t2: Lifecycle)
    requires Message(s1, t1) == Message(s2, t2) != []
    ensures s1 == s2
  {
    var items := Message(s1, t1);
    var caption := items[0].text;
    assert caption == Message(s2, t2)[0].text;
  }
}
