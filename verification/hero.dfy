/** The hero carousel: three slides, a timer that advances the index every
    three seconds, and one dot per slide that jumps to it. */
module Hero {

  datatype Slide = Slide(src: string, title: string, description: string, color: string)

  const Slides: seq<Slide> := [
    Slide("/duolingo.webp", "Duolingo English Test",
          "Achieve your best score with comprehensive preparation", "from-blue-600 to-purple-700"),
    Slide("/ieltss.jpg", "IELTS Preparation",
          "Master all four skills with expert guidance", "from-red-600 to-orange-600"),
    Slide("/toefll.jpg", "TOEFL iBT",
          "Excel in your academic English proficiency test", "from-green-600 to-teal-600")
  ]

  /** A value `currentImageIndex` can hold. */
  predicate InRange(i: int)
  {
    0 <= i < |Slides|
  }

  /** The interval's update: the next slide, wrapping after the last. */
  function Tick(i: nat): (r: nat)
    ensures InRange(r)
    ensures InRange(i) ==> (r == i + 1 || (i == |Slides| - 1 && r == 0))
  {
    (i + 1) % |Slides|
  }

  /** What may happen to the index. Dots exist only for real slides, and a
      click does not restart the interval. */
  datatype Event = TimerFired | DotClicked(k: nat)

  predicate WellFormed(e: Event)
  {
    e.DotClicked? ==> InRange(e.k)
  }

  function Step(i: nat, e: Event): (r: nat)
    requires WellFormed(e)
    ensures InRange(r)
    ensures e.DotClicked? ==> r == e.k
  {
    match e
    case TimerFired => Tick(i)
    case DotClicked(k) => k
  }

  /** The index after a run of events from the initial index 0. */
  function Run(events: seq<Event>): (i: nat)
    requires forall j :: 0 <= j < |events| ==> WellFormed(events[j])
    ensures InRange(i)
  {
    if |events| == 0 then 0 else Step(Run(events[..|events| - 1]), events[|events| - 1])
  }

  /** `n` timer ticks from slide `i` land on slide `(i + n) mod 3`. */
  function Ticks(i: nat, n: nat): (r: nat)
  {
    if n == 0 then i else Tick(Ticks(i, n - 1))
  }

  lemma {:induction false} TicksAdvance(i: nat, n: nat)
    requires InRange(i)
    ensures Ticks(i, n) == (i + n) % |Slides|
  {
    if n > 0 {
      TicksAdvance(i, n - 1);
    }
  }

  /** Three ticks bring every slide back, and within three ticks every
      slide is shown. */
  lemma {:induction false} EverySlideComesRound(i: nat, k: nat)
    requires InRange(i) && InRange(k)
    ensures Ticks(i, |Slides|) == i
    ensures Ticks(i, (k - i + |Slides|) % |Slides|) == k
  {
    TicksAdvance(i, |Slides|);
    TicksAdvance(i, (k - i + |Slides|) % |Slides|);
  }

  /** What one render shows for an index: which slides take full opacity
      rather than none, the description line, and which dots are lit. */
  datatype Frame = Frame(visible: seq<bool>, description: string, activeDots: seq<bool>)

  function Render(i: nat): (f: Frame)
    requires InRange(i)
    ensures |f.visible| == |Slides| && |f.activeDots| == |Slides|
    ensures forall k :: 0 <= k < |Slides| ==> (f.visible[k] <==> k == i) && (f.activeDots[k] <==> k == i)
    ensures f.description == Slides[i].description
  {
    var marks := seq(|Slides|, k => k == i);
    Frame(marks, Slides[i].description, marks)
  }

  /** Number of true entries. */
  function CountTrue(bs: seq<bool>): nat
  {
    if |bs| == 0 then 0 else (if bs[0] then 1 else 0) + CountTrue(bs[1..])
  }

  lemma {:induction false} CountSingle(bs: seq<bool>, i: nat)
    requires i < |bs| && bs[i]
    requires forall k :: 0 <= k < |bs| && k != i ==> !bs[k]
    ensures CountTrue(bs) == 1
  {
    if i == 0 {
      CountNone(bs[1..]);
    } else {
      assert !bs[0];
      CountSingle(bs[1..], i - 1);
    }
  }

  lemma {:induction false} CountNone(bs: seq<bool>)
    requires forall k :: 0 <= k < |bs| ==> !bs[k]
    ensures CountTrue(bs) == 0
  {
    if |bs| > 0 {
      CountNone(bs[1..]);
    }
  }

  /** After any run of ticks and clicks exactly one slide is fully opaque and
      exactly one dot is active, and they are the same one. */
  lemma ExactlyOneSlideShown(events: seq<Event>)
    requires forall j :: 0 <= j < |events| ==> WellFormed(events[j])
    ensures var f := Render(Run(events));
            && CountTrue(f.visible) == 1 && CountTrue(f.activeDots) == 1
            && f.visible == f.activeDots
  {
    var i := Run(events);
    var f := Render(i);
    CountSingle(f.visible, i);
    CountSingle(f.activeDots, i);
  }
}
