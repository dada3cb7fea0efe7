/** A reader for the text the countdown renderer writes. It accepts an optional
    days part, then an optional hours part, then an optional minutes part, and
    nothing else, and it refuses a part whose value is zero; the round trip below
    shows that the rendered text states the non-zero components exactly, in that
    order, leaves the zero ones out, and has no seconds part. */
module DurationText {
  import opened Decimal
  import opened ContestDuration

  datatype Duration = Duration(days: int, hours: int, minutes: int)

  /** Reads `<integer><suffix of u>` at the front of `s`. */
  function ReadPart(s: string, u: Unit): Option<(int, string)> {
    match ParseInt(s)
    case None => None
    case Some((n, rest)) =>
      if Suffix(u) <= rest then Some((n, rest[|Suffix(u)|..])) else None
  }

  /** An absent part reads as zero; a part that states zero is refused. */
  function ReadOptionalPart(s: string, u: Unit): Option<(int, string)> {
    match ReadPart(s, u)
    case Some((n, rest)) => if n != 0 then Some((n, rest)) else None
    case None => Some((0, s))
  }

  function ReadRendered(s: string): Option<Duration> {
    match ReadOptionalPart(s, Days)
    case None => None
    case Some((d, s1)) =>
      match ReadOptionalPart(s1, Hours)
      case None => None
      case Some((h, s2)) =>
        match ReadOptionalPart(s2, Minutes)
        case None => None
        case Some((m, s3)) => if s3 == [] then Some(Duration(d, h, m)) else None
  }

  lemma ReadPartOf(n: int, u: Unit, rest: string)
    ensures ReadPart(IntToString(n) + Suffix(u) + rest, u) == Some((n, rest))
  {
    var tail := Suffix(u) + rest;
    assert tail[0] == ' ';
    ParseIntOf(n, tail);
    assert IntToString(n) + Suffix(u) + rest == IntToString(n) + tail;
    assert tail[|Suffix(u)|..] == rest;
  }

  /** A part written for one unit is not read as a part of another. */
  lemma ReadPartMismatch(n: int, u: Unit, v: Unit, rest: string)
    requires u != v
    ensures ReadPart(IntToString(n) + Suffix(u) + rest, v) == None
  {
    var tail := Suffix(u) + rest;
    assert tail[0] == ' ';
    ParseIntOf(n, tail);
    assert IntToString(n) + Suffix(u) + rest == IntToString(n) + tail;
    assert tail[1] != Suffix(v)[1];
  }

  lemma ReadOptionalPartOf(n: int, u: Unit, rest: string)
    requires ReadPart(rest, u).None?
    ensures ReadOptionalPart(Part(n, u) + rest, u) == Some((n, rest))
  {
    if n != 0 {
      ReadPartOf(n, u, rest);
    } else {
      assert Part(n, u) + rest == rest;
    }
  }

  /** Text that starts with a non-zero part of another unit `v`, or with a
      zero `v` (which writes nothing) followed by text with no part for `u`,
      has no part for `u` at its front. */
  lemma NoPartFor(n: int, v: Unit, rest: string, u: Unit)
    requires u != v
    requires n != 0 || ReadPart(rest, u).None?
    ensures ReadPart(Part(n, v) + rest, u).None?
  {
    if n != 0 {
      ReadPartMismatch(n, v, u, rest);
    } else {
      assert Part(n, v) + rest == rest;
    }
  }

  lemma ReadEmpty(u: Unit)
    ensures ReadPart("", u).None?
  {
  }

  lemma RenderParts(days: int, hours: int, minutes: int)
    ensures Render(days, hours, minutes, false)
      == Part(days, Days) + (Part(hours, Hours) + Part(minutes, Minutes))
  {
  }

  /** Reading back the renderer's text of a running countdown recovers days,
      hours and minutes exactly: no zero component is written (the reader
      refuses one), the order is days, hours, minutes, and the text holds
      nothing else. */
  lemma {:induction false} RenderRoundTrip(days: int, hours: int, minutes: int)
    ensures ReadRendered(Render(days, hours, minutes, false)) == Some(Duration(days, hours, minutes))
  {
    var pm := Part(minutes, Minutes);
    var ph := Part(hours, Hours);
    RenderParts(days, hours, minutes);
    ReadEmpty(Minutes);
    ReadEmpty(Hours);
    ReadEmpty(Days);
    assert pm == pm + "";
    ReadOptionalPartOf(minutes, Minutes, "");

    NoPartFor(minutes, Minutes, "", Hours);
    ReadOptionalPartOf(hours, Hours, pm);

    NoPartFor(minutes, Minutes, "", Days);
    NoPartFor(hours, Hours, pm, Days);
    ReadOptionalPartOf(days, Days, ph + pm);
  }

  /** A text starting with a part for `u` reads that part. */
  lemma ReadPartOfPrefix(n: int, u: Unit, s: string)
    requires IntToString(n) + Suffix(u) <= s
    ensures ReadPart(s, u) == Some((n, s[|IntToString(n) + Suffix(u)|..]))
  {
    var k := |IntToString(n) + Suffix(u)|;
    assert s == IntToString(n) + Suffix(u) + s[k..];
    ReadPartOf(n, u, s[k..]);
  }

  lemma NoPrefixWhenUnread(n: int, u: Unit, s: string)
    requires ReadPart(s, u).None?
    ensures !(IntToString(n) + Suffix(u) <= s)
  {
    if IntToString(n) + Suffix(u) <= s {
      ReadPartOfPrefix(n, u, s);
    }
  }

  /** A part for `u` heads `Part(n, u) + tail` iff `n` is non-zero, when
      `tail` does not itself start with a part for `u`. */
  lemma PartHeadsIff(n: int, u: Unit, tail: string)
    requires ReadPart(tail, u).None?
    ensures IntToString(n) + Suffix(u) <= Part(n, u) + tail <==> n != 0
  {
    if n == 0 {
      assert Part(n, u) + tail == tail;
      NoPrefixWhenUnread(n, u, tail);
    } else {
      assert Part(n, u) + tail == (IntToString(n) + Suffix(u)) + tail;
    }
  }

  /** In a running countdown's text the days part `<d> days ` comes first iff
      days is non-zero. */
  lemma {:induction false} RenderShowsDaysIff(days: int, hours: int, minutes: int)
    ensures IntToString(days) + " days " <= Render(days, hours, minutes, false) <==> days != 0
  {
    var ph, pm := Part(hours, Hours), Part(minutes, Minutes);
    ReadEmpty(Days);
    NoPartFor(minutes, Minutes, "", Days);
    assert pm + "" == pm;
    NoPartFor(hours, Hours, pm, Days);
    PartHeadsIff(days, Days, ph + pm);
    RenderParts(days, hours, minutes);
  }

  /** After any text `prefix`, a part for `u` heads `Part(n, u) + tail` iff
      `n` is non-zero, when `tail` does not itself start with a part for `u`. */
  lemma PartFollowsIff(prefix: string, n: int, u: Unit, tail: string)
    requires ReadPart(tail, u).None?
    ensures prefix + (IntToString(n) + Suffix(u)) <= prefix + (Part(n, u) + tail) <==> n != 0
  {
    PartHeadsIff(n, u, tail);
    PrefixAfter(prefix, IntToString(n) + Suffix(u), Part(n, u) + tail);
  }

  /** The hours part `<h> hrs ` follows what the days wrote iff hours is
      non-zero. */
  lemma {:induction false} RenderShowsHoursIff(days: int, hours: int, minutes: int)
    ensures Part(days, Days) + (IntToString(hours) + " hrs ") <= Render(days, hours, minutes, false)
      <==> hours != 0
  {
    var pd, ph, pm := Part(days, Days), Part(hours, Hours), Part(minutes, Minutes);
    ReadEmpty(Hours);
    NoPartFor(minutes, Minutes, "", Hours);
    assert pm + "" == pm;
    PartFollowsIff(pd, hours, Hours, pm);
    RenderParts(days, hours, minutes);
  }

  lemma PrefixAfter(a: string, b: string, c: string)
    ensures a + b <= a + c <==> b <= c
  {
    if a + b <= a + c {
      assert c[..|b|] == (a + c)[|a|..|a| + |b|] == b;
    }
    if b <= c {
      assert (a + c)[..|a| + |b|] == a + b;
    }
  }

  predicate EndsWith(s: string, t: string) {
    |t| <= |s| && s[|s| - |t|..] == t
  }

  /** The third character from the end of a non-empty part names its unit:
      'y' for days, 'r' for hours, 'n' for minutes. */
  lemma PartMark(s: string, n: int, u: Unit)
    requires n != 0
    ensures var t := s + Part(n, u);
      |t| >= 3 && t[|t| - 3] == (match u case Days => 'y' case Hours => 'r' case Minutes => 'n')
  {
    var t := s + Part(n, u);
    assert t[|t| - 3] == Suffix(u)[|Suffix(u)| - 3];
  }

  /** A running countdown's text ends with the minutes part `<m> mins ` iff
      minutes is non-zero. */
  lemma {:induction false} RenderShowsMinutesIff(days: int, hours: int, minutes: int)
    ensures EndsWith(Render(days, hours, minutes, false), IntToString(minutes) + " mins ")
      <==> minutes != 0
  {
    var text := Render(days, hours, minutes, false);
    var tail := IntToString(minutes) + " mins ";
    var pd, ph := Part(days, Days), Part(hours, Hours);
    assert text == pd + ph + Part(minutes, Minutes);
    if minutes != 0 {
      assert text == (pd + ph) + tail;
      assert text[|text| - |tail|..] == tail;
    } else {
      assert text == pd + ph;
      assert tail[|tail| - 3] == 'n';
      if hours != 0 {
        PartMark(pd, hours, Hours);
      } else if days != 0 {
        PartMark("", days, Days);
        assert text == "" + pd;
      }
    }
  }

  /** A part that states zero is refused, whatever follows it: a renderer
      that wrote `0 days ` would fail the round trip. */
  lemma ReadRejectsZeroPart(u: Unit, rest: string)
    ensures ReadOptionalPart(IntToString(0) + Suffix(u) + rest, u).None?
  {
    ReadPartOf(0, u, rest);
  }

  /** "Time is up!" is not the text of any running countdown. */
  lemma {:induction false} CompletedIsDistinct(days: int, hours: int, minutes: int, d: int, h: int, m: int)
    ensures Render(days, hours, minutes, false) != Render(d, h, m, true)
  {
    RenderRoundTrip(days, hours, minutes);
    assert SpanDigits(TimeIsUp) == 0;
    assert ReadRendered(TimeIsUp).None?;
  }

  /** Two running countdowns render the same text only when they show the
      same days, hours and minutes. */
  lemma {:induction false} RenderInjective(d1: int, h1: int, m1: int, d2: int, h2: int, m2: int)
    requires Render(d1, h1, m1, false) == Render(d2, h2, m2, false)
    ensures d1 == d2 && h1 == h2 && m1 == m2
  {
    RenderRoundTrip(d1, h1, m1);
    RenderRoundTrip(d2, h2, m2);
  }
}
