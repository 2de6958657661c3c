/** The French rendering of a duration given in minutes (`_format_minutes` of
    the PDF export): days, hours and minutes, each with its singular or plural
    word, joined by ", "; a zero or missing duration reads "0 minutes". */
module DurationFormat {
  import opened Wrappers
  import opened Strings

  const MinutesPerDay: nat := 1440
  const MinutesPerHour: nat := 60

  datatype Unit = Day | Hour | Minute

  /** How many minutes one of `u` is. */
  function Size(u: Unit): nat
  {
    match u
    case Day => MinutesPerDay
    case Hour => MinutesPerHour
    case Minute => 1
  }

  /** The position of a unit in the rendering. */
  function Rank(u: Unit): nat
  {
    match u
    case Day => 0
    case Hour => 1
    case Minute => 2
  }

  /** One rendered component: an amount of a unit. */
  datatype Part = Part(amount: int, unit: Unit)

  /** `int(total_minutes or 0)`: a missing duration counts as zero. */
  function Normalize(total: Option<int>): int
  {
    total.GetOr(0)
  }

  /** `divmod(minutes, 1440)` and then `divmod(remainder, 60)`, with Python's
      floor division (on a positive divisor it agrees with Dafny's). */
  function Days(m: int): int
  {
    m / MinutesPerDay
  }

  function Hours(m: int): int
  {
    (m % MinutesPerDay) / MinutesPerHour
  }

  function Mins(m: int): int
  {
    (m % MinutesPerDay) % MinutesPerHour
  }

  /** The components that are rendered: days and hours when non-zero, minutes
      when non-zero or when nothing else was rendered. */
  function Parts(m: int): seq<Part>
  {
    Components(Days(m), Hours(m), Mins(m))
  }

  /** The rendered components of `d` days, `h` hours and `mi` minutes. */
  function Components(d: int, h: int, mi: int): seq<Part>
  {
    var dayPart := if d != 0 then [Part(d, Day)] else [];
    var hourPart := if h != 0 then [Part(h, Hour)] else [];
    var minutePart := if mi != 0 || dayPart + hourPart == [] then [Part(mi, Minute)] else [];
    dayPart + hourPart + minutePart
  }

  /** The unit's word, singular exactly for an amount of one. */
  function Word(p: Part): string
  {
    match p.unit
    case Day => if p.amount == 1 then "jour" else "jours"
    case Hour => if p.amount == 1 then "heure" else "heures"
    case Minute => if p.amount == 1 then "minute" else "minutes"
  }

  /** `f"{amount} {word}"`. */
  function Render(p: Part): string
  {
    IntToString(p.amount) + " " + Word(p)
  }

  function Renders(ps: seq<Part>): (r: seq<string>)
    ensures |r| == |ps|
    ensures forall i :: 0 <= i < |ps| ==> r[i] == Render(ps[i])
  {
    if ps == [] then [] else [Render(ps[0])] + Renders(ps[1..])
  }

  /** `_format_minutes`: the rendered components joined by ", ".  The text is
      never empty, and it holds a comma exactly when more than one component
      is rendered. */
  function FormatMinutes(total: Option<int>): (text: string)
    ensures |text| > 0
    ensures ',' in text <==> |Parts(Normalize(total))| > 1
  {
    var ps := Parts(Normalize(total));
    PartsShape(Normalize(total));
    NoCommaInRenders(ps);
    CommaInJoin(Renders(ps));
    assert |Render(ps[0])| > 0;
    Join(Renders(ps), ", ")
  }

  // ---------------------------------------------------------------------------
  // Reading a rendering back

  /** The minutes one component stands for. */
  function PartValue(p: Part): int
  {
    p.amount * Size(p.unit)
  }

  /** The minutes a sequence of components stands for. */
  function Value(ps: seq<Part>): int
  {
    if ps == [] then 0 else PartValue(ps[0]) + Value(ps[1..])
  }

  function UnitOfWord(w: string): Option<Unit>
  {
    if w == "jour" || w == "jours" then Some(Day)
    else if w == "heure" || w == "heures" then Some(Hour)
    else if w == "minute" || w == "minutes" then Some(Minute)
    else None
  }

  /** "<integer> <word>" read back as minutes. */
  function ParsePart(chunk: string): Option<int>
  {
    var words := Split(chunk, ' ');
    if |words| != 2 || !IsIntLiteral(words[0]) then None
    else
      match UnitOfWord(words[1])
      case None => None
      case Some(u) => Some(PartValue(Part(ParseInt(words[0]), u)))
  }

  /** The chunks after the first: each starts with the space of ", ". */
  function ParseMore(chunks: seq<string>): Option<int>
  {
    if chunks == [] then Some(0)
    else if |chunks[0]| == 0 || chunks[0][0] != ' ' then None
    else
      match (ParsePart(chunks[0][1..]), ParseMore(chunks[1..]))
      case (Some(a), Some(b)) => Some(a + b)
      case _ => None
  }

  /** A rendered duration read back as minutes. */
  function ParseFormatted(s: string): Option<int>
  {
    var chunks := Split(s, ',');
    match (ParsePart(chunks[0]), ParseMore(chunks[1..]))
    case (Some(a), Some(b)) => Some(a + b)
    case _ => None
  }

  // ---------------------------------------------------------------------------
  // Properties

  /** The two `divmod`s decompose the minutes: hours below a day, minutes below
      an hour, and together they add back up to the input. */
  lemma Decomposition(m: int)
    ensures Days(m) * MinutesPerDay + Hours(m) * MinutesPerHour + Mins(m) == m
    ensures 0 <= Hours(m) < 24 && 0 <= Mins(m) < 60
  {
    var r := m % MinutesPerDay;
    assert m == Days(m) * MinutesPerDay + r;
    assert r == Hours(m) * MinutesPerHour + Mins(m);
  }

  lemma {:induction false} ValueAppend(a: seq<Part>, b: seq<Part>)
    ensures Value(a + b) == Value(a) + Value(b)
    decreases |a|
  {
    if a == [] {
      assert a + b == b;
    } else {
      assert (a + b)[0] == a[0];
      assert (a + b)[1..] == a[1..] + b;
      ValueAppend(a[1..], b);
    }
  }

  /** The rendered components stand for exactly the input minutes. */
  lemma PartsValue(m: int)
    ensures Value(Parts(m)) == m
  {
    ComponentsValue(Days(m), Hours(m), Mins(m));
    Decomposition(m);
  }

  lemma ComponentsValue(d: int, h: int, mi: int)
    ensures Value(Components(d, h, mi)) == d * MinutesPerDay + h * MinutesPerHour + mi
  {
    var dayPart := if d != 0 then [Part(d, Day)] else [];
    var hourPart := if h != 0 then [Part(h, Hour)] else [];
    var minutePart := if mi != 0 || dayPart + hourPart == [] then [Part(mi, Minute)] else [];
    ValueAppend(dayPart + hourPart, minutePart);
    ValueAppend(dayPart, hourPart);
    assert Value(dayPart) == d * MinutesPerDay;
    assert Value(hourPart) == h * MinutesPerHour;
    assert Value(minutePart) == mi;
  }

  /** Which components appear, in which order: a day part exactly when the
      days are non-zero, an hour part exactly when the hours are non-zero, a
      minute part exactly when the minutes are non-zero or nothing else
      appears; units come day, hour, minute, and only a lone "0 minutes"
      has a zero amount. */
  lemma PartsShape(m: int)
    ensures 1 <= |Parts(m)| <= 3
    ensures Part(Days(m), Day) in Parts(m) <==> Days(m) != 0
    ensures Part(Hours(m), Hour) in Parts(m) <==> Hours(m) != 0
    ensures Part(Mins(m), Minute) in Parts(m) <==> Mins(m) != 0 || (Days(m) == 0 && Hours(m) == 0)
    ensures forall p :: p in Parts(m) ==> p in [Part(Days(m), Day), Part(Hours(m), Hour), Part(Mins(m), Minute)]
    ensures forall i, j :: 0 <= i < j < |Parts(m)| ==> Rank(Parts(m)[i].unit) < Rank(Parts(m)[j].unit)
    ensures forall p :: p in Parts(m) ==> p.amount != 0 || Parts(m) == [Part(0, Minute)]
  {
    ComponentsShape(Days(m), Hours(m), Mins(m));
  }

  lemma ComponentsShape(d: int, h: int, mi: int)
    ensures var ps := Components(d, h, mi);
      && 1 <= |ps| <= 3
      && (Part(d, Day) in ps <==> d != 0)
      && (Part(h, Hour) in ps <==> h != 0)
      && (Part(mi, Minute) in ps <==> mi != 0 || (d == 0 && h == 0))
      && (forall p :: p in ps ==> p in [Part(d, Day), Part(h, Hour), Part(mi, Minute)])
      && (forall i, j :: 0 <= i < j < |ps| ==> Rank(ps[i].unit) < Rank(ps[j].unit))
      && (forall p :: p in ps ==> p.amount != 0 || ps == [Part(0, Minute)])
  {
    var dp, hp, mp := Part(d, Day), Part(h, Hour), Part(mi, Minute);
    if d != 0 && h != 0 {
      if mi != 0 { assert Components(d, h, mi) == [dp, hp, mp]; } else { assert Components(d, h, mi) == [dp, hp]; }
    } else if d != 0 {
      if mi != 0 { assert Components(d, h, mi) == [dp, mp]; } else { assert Components(d, h, mi) == [dp]; }
    } else if h != 0 {
      if mi != 0 { assert Components(d, h, mi) == [hp, mp]; } else { assert Components(d, h, mi) == [hp]; }
    } else {
      assert Components(d, h, mi) == [mp];
    }
  }

  /** The word is plural, ending in "s", for every amount but one, negative
      amounts and zero included; and it always names the component's unit. */
  lemma WordAgreement(p: Part)
    ensures |Word(p)| > 1
    ensures Word(p)[|Word(p)| - 1] == 's' <==> p.amount != 1
    ensures UnitOfWord(Word(p)) == Some(p.unit)
  {
  }

  lemma RenderChars(p: Part, c: char)
    requires c == ' ' || c == ','
    ensures c !in IntToString(p.amount) && c !in Word(p)
  {
    IntToStringChars(p.amount, c);
  }

  /** One rendered component reads back as the minutes it stands for. */
  lemma ParsePartRender(p: Part)
    ensures ParsePart(Render(p)) == Some(PartValue(p))
  {
    var digits, w := IntToString(p.amount), Word(p);
    RenderChars(p, ' ');
    assert Render(p) == digits + [' '] + w;
    SplitAt(digits, ' ', w);
    SplitWithout(w, ' ');
    assert Split(Render(p), ' ') == [digits, w];
    IntToStringRoundTrip(p.amount);
    assert UnitOfWord(w) == Some(p.unit);
  }

  lemma NoCommaInRenders(ps: seq<Part>)
    ensures forall i :: 0 <= i < |ps| ==> ',' !in Renders(ps)[i]
  {
    forall i | 0 <= i < |ps| ensures ',' !in Renders(ps)[i] {
      NoCommaInRender(ps[i]);
    }
  }

  lemma NoCommaInRender(p: Part)
    ensures ',' !in Render(p)
  {
    var digits, w := IntToString(p.amount), Word(p);
    RenderChars(p, ',');
    forall i | 0 <= i < |Render(p)| ensures Render(p)[i] != ',' {
      if i < |digits| {
        assert Render(p)[i] == digits[i];
      } else if i > |digits| {
        assert Render(p)[i] == w[i - |digits| - 1];
      }
    }
  }

  lemma {:induction false} ParseMoreRenders(ps: seq<Part>)
    ensures ParseMore(Prefixed(" ", Renders(ps))) == Some(Value(ps))
    decreases |ps|
  {
    if ps == [] {
      assert Prefixed(" ", Renders(ps)) == [];
    } else {
      ParseMoreRenders(ps[1..]);
      ParseMoreStep(ps);
    }
  }

  /** One more component in front adds its minutes to what the rest reads as. */
  lemma {:induction false} ParseMoreStep(ps: seq<Part>)
    requires ps != []
    requires ParseMore(Prefixed(" ", Renders(ps[1..]))) == Some(Value(ps[1..]))
    ensures ParseMore(Prefixed(" ", Renders(ps))) == Some(Value(ps))
  {
    var chunks := Prefixed(" ", Renders(ps));
    ChunksHead(ps);
    ParsePartRender(ps[0]);
    ValueHead(ps);
    ParseMoreCons(chunks, PartValue(ps[0]), Value(ps[1..]));
  }

  /** The first chunk after a comma is a space and the first rendering; the
      rest are the chunks of the remaining components. */
  lemma ChunksHead(ps: seq<Part>)
    requires ps != []
    ensures var chunks := Prefixed(" ", Renders(ps));
      && |chunks[0]| > 0 && chunks[0][0] == ' ' && chunks[0][1..] == Render(ps[0])
      && chunks[1..] == Prefixed(" ", Renders(ps[1..]))
  {
    var chunks := Prefixed(" ", Renders(ps));
    assert chunks[0] == " " + Render(ps[0]);
    var tail := Prefixed(" ", Renders(ps[1..]));
    forall i | 0 <= i < |tail| ensures chunks[1..][i] == tail[i] {
      assert chunks[1..][i] == " " + Renders(ps)[i + 1];
      assert Renders(ps)[i + 1] == Render(ps[i + 1]) == Render(ps[1..][i]);
    }
  }

  lemma ParseMoreCons(chunks: seq<string>, a: int, b: int)
    requires |chunks| > 0 && |chunks[0]| > 0 && chunks[0][0] == ' '
    requires ParsePart(chunks[0][1..]) == Some(a) && ParseMore(chunks[1..]) == Some(b)
    ensures ParseMore(chunks) == Some(a + b)
  {
  }

  /** A text whose comma-separated pieces are the rendered components reads
      back as the minutes they stand for. */
  lemma ParseRendered(ps: seq<Part>, text: string)
    requires |ps| > 0
    requires Split(text, ',') == [Render(ps[0])] + Prefixed(" ", Renders(ps[1..]))
    ensures ParseFormatted(text) == Some(Value(ps))
  {
    var first, more := Render(ps[0]), Prefixed(" ", Renders(ps[1..]));
    var a, b := PartValue(ps[0]), Value(ps[1..]);
    ValueHead(ps);
    ParsePartRender(ps[0]);
    ParseMoreRenders(ps[1..]);
    ParseChunks(text, first, more, a, b, Value(ps));
  }

  lemma ValueHead(ps: seq<Part>)
    requires |ps| > 0
    ensures Value(ps) == PartValue(ps[0]) + Value(ps[1..])
  {
  }

  /** The pieces between the commas of a rendering are its components, each
      after the first behind the space of the separator. */
  lemma ChunksOfJoined(ps: seq<Part>, text: string)
    requires |ps| > 0 && text == Join(Renders(ps), ", ")
    ensures Split(text, ',') == [Render(ps[0])] + Prefixed(" ", Renders(ps[1..]))
  {
    var rs := Renders(ps);
    forall i | 0 <= i < |rs| ensures ',' !in rs[i] {
      NoCommaInRender(ps[i]);
    }
    SplitJoinComma(rs);
    assert rs[1..] == Renders(ps[1..]);
  }

  lemma ParseChunks(s: string, first: string, more: seq<string>, a: int, b: int, total: int)
    requires Split(s, ',') == [first] + more
    requires ParsePart(first) == Some(a) && ParseMore(more) == Some(b) && total == a + b
    ensures ParseFormatted(s) == Some(total)
  {
    assert ([first] + more)[1..] == more;
  }

  /** Reading the rendering back gives the normalised minutes: the text
      loses nothing, whatever the sign. */
  lemma FormatRoundTrip(total: Option<int>)
    ensures ParseFormatted(FormatMinutes(total)) == Some(Normalize(total))
  {
    var m := Normalize(total);
    PartsShape(m);
    ChunksOfJoined(Parts(m), FormatMinutes(total));
    ParseRendered(Parts(m), FormatMinutes(total));
    PartsValue(m);
  }

  /** Nothing at all and exactly zero both read "0 minutes". */
  lemma ZeroText()
    ensures FormatMinutes(None) == "0 minutes" && FormatMinutes(Some(0)) == "0 minutes"
  {
    assert Parts(0) == [Part(0, Minute)];
    assert DigitChar(0) == '0';
    assert IntToString(0) == "0";
    assert Render(Part(0, Minute)) == "0" + " " + "minutes" == "0 minutes";
    assert Renders(Parts(0)) == ["0 minutes"];
  }

  /** Different minute counts never share a rendering: a text stands for one
      duration only. */
  lemma FormatInjective(x: Option<int>, y: Option<int>)
    ensures FormatMinutes(x) == FormatMinutes(y) <==> Normalize(x) == Normalize(y)
  {
    FormatRoundTrip(x);
    FormatRoundTrip(y);
  }
}
