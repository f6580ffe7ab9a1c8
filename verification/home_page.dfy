/** The home page's computed pieces: the initials badge of a testimonial,
    the rows of star icons, and the marquee that scrolls its content in a
    seamless loop. */
module HomePage {

  import opened Text

  // ---------------------------------------------------------------------
  // Initials

  /** `n[0]` on one piece: an empty piece has no first character, and the
      `undefined` it yields joins as the empty string. */
  function FirstChar(piece: string): (r: string)
    ensures |r| <= 1
    ensures |r| == 1 <==> |piece| > 0
    ensures |r| == 1 ==> r[0] == piece[0]
  {
    if |piece| == 0 then "" else [piece[0]]
  }

  function FirstChars(pieces: seq<string>): (r: seq<string>)
    ensures |r| == |pieces|
    ensures forall i :: 0 <= i < |pieces| ==> r[i] == FirstChar(pieces[i])
  {
    seq(|pieces|, i requires 0 <= i < |pieces| => FirstChar(pieces[i]))
  }

  /** `name.split(' ').map(n => n[0]).join('')`. */
  function Initials(name: string): string
  {
    Join(FirstChars(Split(name, ' ')), "")
  }

  /** An independent reading of the same text: every character that is not
      a space and starts the name or follows a space. `atStart` says
      whether the previous character was a space (or there was none). */
  function WordStarts(s: string, atStart: bool): string
  {
    if |s| == 0 then ""
    else if s[0] == ' ' then WordStarts(s[1..], true)
    else (if atStart then [s[0]] else "") + WordStarts(s[1..], false)
  }

  /** The pieces' first characters, one after the other. */
  function ConcatFirsts(pieces: seq<string>): string
  {
    if |pieces| == 0 then "" else FirstChar(pieces[0]) + ConcatFirsts(pieces[1..])
  }

  lemma {:induction false} JoinFirsts(pieces: seq<string>)
    ensures Join(FirstChars(pieces), "") == ConcatFirsts(pieces)
    decreases |pieces|
  {
    if |pieces| > 0 {
      JoinFirsts(pieces[1..]);
      assert FirstChars(pieces)[1..] == FirstChars(pieces[1..]);
      if |pieces| == 1 {
        assert ConcatFirsts(pieces[1..]) == "";
      }
    }
  }

  lemma {:induction false} WordStartsSplit(t: string, atStart: bool)
    ensures var pieces := Split(t, ' ');
            WordStarts(t, atStart) == if atStart then ConcatFirsts(pieces) else ConcatFirsts(pieces[1..])
    decreases |t|
  {
    var pieces := Split(t, ' ');
    if |t| == 0 {
      assert pieces == [""];
      assert ConcatFirsts([""]) == "" + ConcatFirsts([]);
    } else {
      var rest := Split(t[1..], ' ');
      if t[0] == ' ' {
        WordStartsSplit(t[1..], true);
        assert pieces == [""] + rest;
        assert pieces[1..] == rest;
      } else {
        WordStartsSplit(t[1..], false);
        assert pieces == [[t[0]] + rest[0]] + rest[1..];
        assert pieces[1..] == rest[1..];
        assert FirstChar(pieces[0]) == [t[0]];
      }
    }
  }

  /** The badge holds exactly the first letter of every word; runs of
      spaces add nothing. */
  lemma InitialsAreWordStarts(name: string)
    ensures Initials(name) == WordStarts(name, true)
  {
    JoinFirsts(Split(name, ' '));
    WordStartsSplit(name, true);
  }

  /** A badge has one letter per non-empty piece, so never more than the
      number of spaces plus one. */
  lemma {:induction false} InitialsLength(name: string)
    ensures |Initials(name)| <= Count(name, ' ') + 1
  {
    var pieces := Split(name, ' ');
    JoinFirsts(pieces);
    ConcatFirstsLength(pieces);
    SplitCount(name, ' ');
  }

  lemma {:induction false} ConcatFirstsLength(pieces: seq<string>)
    ensures |ConcatFirsts(pieces)| <= |pieces|
    decreases |pieces|
  {
    if |pieces| > 0 {
      ConcatFirstsLength(pieces[1..]);
    }
  }

  // ---------------------------------------------------------------------
  // Testimonials

  datatype Testimonial = Testimonial(name: string, role: string, achievement: string, rating: nat)

  const Testimonials: seq<Testimonial> := [
    Testimonial("Sarah Johnson", "IELTS Band 8", "Admitted to University of Toronto", 5),
    Testimonial("Michael Chen", "TOEFL 115", "MBA Candidate at Harvard", 5)
  ]

  /** The initials of a two-word name are its two capitals. */
  lemma {:induction false} TwoWordInitials(first: string, last: string)
    requires |first| > 0 && |last| > 0
    requires ' ' !in first && ' ' !in last
    ensures Initials(first + " " + last) == [first[0], last[0]]
  {
    var pieces := [first, last];
    assert NoSeparator(pieces, ' ') by {
      forall i | 0 <= i < |pieces| ensures ' ' !in pieces[i] {
        if i == 0 { assert pieces[i] == first; } else { assert pieces[i] == last; }
      }
    }
    assert Join(pieces, " ") == first + " " + last;
    SplitJoin(pieces, ' ');
    JoinFirsts(pieces);
    assert pieces[1..] == [last];
    assert ConcatFirsts([last]) == [last[0]] + ConcatFirsts([]);
  }

  /** The two testimonials' badges read "SJ" and "MC". */
  lemma TestimonialBadges(k: nat, name: string)
    requires k < |Testimonials| && name == Testimonials[k].name
    ensures Initials(name) == ["SJ", "MC"][k]
  {
    if k == 0 {
      assert name == "Sarah" + " " + "Johnson";
      TwoWordInitials("Sarah", "Johnson");
    } else {
      assert name == "Michael" + " " + "Chen";
      TwoWordInitials("Michael", "Chen");
    }
  }

  // ---------------------------------------------------------------------
  // Star rows

  /** A star icon and its React key. */
  datatype Star = Star(key: nat)

  /** `[...Array(n)].map((_, i) => <Star key={i} />)`. */
  function Stars(n: nat): (r: seq<Star>)
    ensures |r| == n
    ensures forall i :: 0 <= i < n ==> r[i].key == i
  {
    seq(n, i requires 0 <= i < n => Star(i))
  }

  /** React's requirement on a list: no two siblings share a key. */
  predicate UniqueKeys(row: seq<Star>)
  {
    forall i, j :: 0 <= i < j < |row| ==> row[i].key != row[j].key
  }

  /** The keys used in a row. */
  function Keys(row: seq<Star>): set<nat>
  {
    set x | x in row :: x.key
  }

  /** A row of `n` stars satisfies React's key requirement, and its keys
      are exactly the numbers below `n`, so a testimonial's row carries one
      star for each point of its rating and nothing else. */
  lemma StarKeys(n: nat)
    ensures UniqueKeys(Stars(n))
    ensures forall k: nat :: k in Keys(Stars(n)) <==> k < n
  {
    var row := Stars(n);
    forall k: nat | k < n ensures k in Keys(row) {
      assert row[k] in row;
    }
  }

  // ---------------------------------------------------------------------
  // The marquee

  /** One of the two copies inside the scrolling track. */
  datatype Copy<T> = Copy(items: seq<T>, ariaHidden: bool)

  /** `MarqueeRow`: the children twice, the second copy hidden from
      assistive technology. */
  function Marquee<T>(children: seq<T>): (r: seq<Copy<T>>)
    ensures |r| == 2
    ensures forall k :: 0 <= k < 2 ==> r[k].items == children
    ensures !r[0].ariaHidden && r[1].ariaHidden
  {
    [Copy(children, false), Copy(children, true)]
  }

  /** Everything drawn in the track, in order. */
  function Track<T>(copies: seq<Copy<T>>): seq<T>
  {
    if |copies| == 0 then [] else copies[0].items + Track(copies[1..])
  }

  /** What a screen reader announces: the copies not hidden. */
  function Announced<T>(copies: seq<Copy<T>>): seq<T>
  {
    if |copies| == 0 then []
    else (if copies[0].ariaHidden then [] else copies[0].items) + Announced(copies[1..])
  }

  /** The track's second half repeats its first, so the animation's jump
      from a shift of half the width back to none is invisible; and a
      screen reader hears each child once. */
  lemma MarqueeLoopsSeamlessly<T>(children: seq<T>)
    ensures var track := Track(Marquee(children));
            && |track| == 2 * |children|
            && track[..|children|] == children
            && track[|children|..] == children
    ensures Announced(Marquee(children)) == children
  {
    var m := Marquee(children);
    assert m[1..] == [Copy(children, true)];
    assert m[1..][1..] == [];
    assert Track(m[1..][1..]) == [] && Announced(m[1..][1..]) == [];
    assert Track(m[1..]) == children;
    assert Track(m) == children + children;
    assert Announced(m[1..]) == [];
    assert Announced(m) == children;
  }
}
