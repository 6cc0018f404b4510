/** The line builders of the package (`LSLpkg/LSLFunc.py`): the `key`
    validator and the `Func` helpers that render one LSL call and put it
    into the event they are bound to. */
module LSLFunc {
  import opened Outcomes
  import opened PyStr
  import opened LSLConst
  import opened Anchors
  import Pkg = LSLEvents

  // ---------------------------------------------------------------------
  // `key`.

  /** `[a-zA-Z\d]` for ASCII text. */
  predicate IsAlnum(c: char) {
    'a' <= c <= 'z' || 'A' <= c <= 'Z' || '0' <= c <= '9'
  }

  predicate AllAlnum(s: string) {
    forall i :: 0 <= i < |s| ==> IsAlnum(s[i])
  }

  /** The regular expression's first branch, read left to right: runs of
      letters and digits of the lengths in `lens`, separated by `-`,
      starting at `pos`; whatever follows the last run is not looked at. */
  predicate GroupsMatch(s: string, pos: nat, lens: seq<nat>)
    decreases |lens|
  {
    |lens| == 0
    || (pos + lens[0] <= |s| && AllAlnum(s[pos..pos + lens[0]])
        && (|lens| == 1
            || (pos + lens[0] < |s| && s[pos + lens[0]] == '-' && GroupsMatch(s, pos + lens[0] + 1, lens[1..]))))
  }

  /** The layout of a UUID at the start of `s`, position by position. */
  predicate UuidShape(s: string) {
    && |s| >= 36
    && AllAlnum(s[0..8]) && s[8] == '-'
    && AllAlnum(s[9..13]) && s[13] == '-'
    && AllAlnum(s[14..18]) && s[18] == '-'
    && AllAlnum(s[19..23]) && s[23] == '-'
    && AllAlnum(s[24..36])
  }

  /** What `re.match` accepts: the UUID branch at the start, or `^$`, which
      matches the empty string and, since `$` also matches before a final
      newline, the string `"\n"`. */
  predicate KeyAccepts(s: string) {
    GroupsMatch(s, 0, [8, 4, 4, 4, 12]) || s == "" || s == "\n"
  }

  /** Matching the groups left to right is the positional UUID layout. */
  lemma GroupsMatchIsUuidShape(s: string)
    ensures GroupsMatch(s, 0, [8, 4, 4, 4, 12]) <==> UuidShape(s)
  {
    assert [8, 4, 4, 4, 12][1..] == [4, 4, 4, 12];
    assert [4, 4, 4, 12][1..] == [4, 4, 12];
    assert [4, 4, 12][1..] == [4, 12];
    assert [4, 12][1..] == [12];
  }

  /** A key: the text it was made from. */
  datatype LslKey = LslKey(uuid: string)

  /** A key that `MakeKey` can produce. */
  type ValidKey = k: LslKey | KeyAccepts(k.uuid) witness LslKey("")

  /** `key(uuid)`: the text is kept as it is when the pattern accepts it,
      and refused otherwise. */
  function MakeKey(uuid: string): (r: Result<LslKey>)
    ensures r.Ok? <==> KeyAccepts(uuid)
    ensures r.Err? ==> r.error == BadUuid
  {
    if KeyAccepts(uuid) then Ok(LslKey(uuid)) else Err(BadUuid)
  }

  /** `str(key)`. */
  function KeyText(k: LslKey): string {
    k.uuid
  }

  /** A key renders as exactly the text it was made from. */
  lemma KeyRoundTrip(uuid: string)
    requires KeyAccepts(uuid)
    ensures MakeKey(uuid).Ok? && KeyText(MakeKey(uuid).value) == uuid
  {
  }

  /** Five runs of 8, 4, 4, 4 and 12 letters or digits joined by `-` are
      accepted, whatever text follows them. */
  lemma UuidLayoutAccepted(a: string, b: string, c: string, d: string, e: string, rest: string)
    requires |a| == 8 && |b| == 4 && |c| == 4 && |d| == 4 && |e| == 12
    requires AllAlnum(a) && AllAlnum(b) && AllAlnum(c) && AllAlnum(d) && AllAlnum(e)
    ensures MakeKey(a + "-" + b + "-" + c + "-" + d + "-" + e + rest).Ok?
  {
    var s := a + "-" + b + "-" + c + "-" + d + "-" + e + rest;
    assert s[0..8] == a && s[8] == '-';
    assert s[9..13] == b && s[13] == '-';
    assert s[14..18] == c && s[18] == '-';
    assert s[19..23] == d && s[23] == '-';
    assert s[24..36] == e;
    GroupsMatchIsUuidShape(s);
  }

  /** A non-empty text shorter than a UUID, other than a lone newline, is
      refused. */
  lemma ShortTextRefused(s: string)
    requires 0 < |s| < 36 && s != "\n"
    ensures MakeKey(s) == Err(BadUuid)
  {
    GroupsMatchIsUuidShape(s);
  }

  // ---------------------------------------------------------------------
  // The rendered lines.

  /** The line `pySay` renders. */
  function SayLine(channel: int, message: string): string {
    "llSay(" + IntToStr(channel) + ", __dquote__" + message + "__dquote__);\n"
  }

  /** The line `pyListen` renders: without the closing `;` and newline
      when it is to be embedded in a longer line. */
  function ListenLine(channel: int, name: string, id: ValidKey, message: string, embed: bool): string {
    "llListen(" + IntToStr(channel) + ", __dquote__" + name + "__dquote__, __dquote__" + KeyText(id)
    + "__dquote__, __dquote__" + message + "__dquote__)" + (if embed then "" else ";\n")
  }

  /** A say line is never blank, and carries a `}` only when the message does. */
  lemma SayLineFacts(channel: int, message: string)
    ensures !IsBlank(SayLine(channel, message))
    ensures '}' in SayLine(channel, message) <==> '}' in message
  {
    var d := IntToStr(channel);
    assert SayLine(channel, message)[0] == 'l';
    DigitsBraceFree(channel);
  }

  /** A listen line is never blank, carries a `}` only when one of its texts
      does, and ends with `;` and a newline exactly when it is not embedded. */
  lemma ListenLineFacts(channel: int, name: string, id: ValidKey, message: string, embed: bool)
    ensures !IsBlank(ListenLine(channel, name, id, message, embed))
    ensures '}' in ListenLine(channel, name, id, message, embed) <==> '}' in name + KeyText(id) + message
    ensures var l := ListenLine(channel, name, id, message, embed);
      (|l| >= 2 && l[|l| - 2..] == ";\n") <==> !embed
  {
    assert ListenLine(channel, name, id, message, embed)[0] == 'l';
    ListenLineBrace(channel, name, id, message, embed);
    ListenLineEnd(channel, name, id, message, embed);
  }

  /** The `}` of a listen line come from its texts. */
  lemma ListenLineBrace(channel: int, name: string, id: ValidKey, message: string, embed: bool)
    ensures '}' in ListenLine(channel, name, id, message, embed) <==> '}' in name + KeyText(id) + message
  {
    DigitsBraceFree(channel);
    var a := "llListen(" + IntToStr(channel) + ", __dquote__";
    var b := "__dquote__, __dquote__";
    var d := "__dquote__)" + (if embed then "" else ";\n");
    assert ListenLine(channel, name, id, message, embed) == a + name + b + KeyText(id) + b + message + d;
    BraceFromTexts(a, name, b, KeyText(id), message, d);
  }

  /** Brace-free glue between three texts adds no `}`. */
  lemma BraceFromTexts(a: string, x: string, b: string, y: string, z: string, d: string)
    requires '}' !in a && '}' !in b && '}' !in d
    ensures '}' in a + x + b + y + b + z + d <==> '}' in x + y + z
  {
  }

  /** A listen line ends with `;` and a newline exactly when it is not embedded. */
  lemma ListenLineEnd(channel: int, name: string, id: ValidKey, message: string, embed: bool)
    ensures var l := ListenLine(channel, name, id, message, embed);
      (|l| >= 2 && l[|l| - 2..] == ";\n") <==> !embed
  {
    var l := ListenLine(channel, name, id, message, embed);
    assert l[|l| - 1] == (if embed then ')' else '\n');
  }

  /** The decimal rendering of an integer holds no `}`. */
  lemma DigitsBraceFree(n: int)
    ensures '}' !in IntToStr(n)
  {
    var d := IntToStr(n);
    forall i | 0 <= i < |d| ensures d[i] != '}' {
      if i > 0 || n >= 0 {
        assert '0' <= d[i] <= '9';
      }
    }
  }

  /** Different integers render differently. */
  lemma IntToStrInjective(a: int, b: int)
    requires IntToStr(a) == IntToStr(b)
    ensures a == b
  {
    if a < 0 {
      assert IntToStr(b)[0] == '-';
      NegativeDigits(a);
      NegativeDigits(b);
      NatToStrInjective(-a, -b);
    } else {
      assert IntToStr(b)[0] != '-';
      NatToStrInjective(a, b);
    }
  }

  lemma NatToStrInjective(m: nat, n: nat)
    requires NatToStr(m) == NatToStr(n)
    ensures m == n
  {
    NatToStrRoundTrip(m);
    NatToStrRoundTrip(n);
  }

  lemma NegativeDigits(n: int)
    requires n < 0
    ensures IntToStr(n)[1..] == NatToStr(-n)
  {
    assert IntToStr(n) == "-" + NatToStr(-n);
  }

  /** What follows the channel in a say line. */
  function SayTail(message: string): string {
    ", __dquote__" + message + "__dquote__);\n"
  }

  lemma SayLineSplit(channel: int, message: string)
    ensures SayLine(channel, message) == "llSay(" + (IntToStr(channel) + SayTail(message))
    ensures SayTail(message)[0] == ','
  {
  }

  /** The tail determines the message. */
  lemma SayTailInjective(m1: string, m2: string)
    requires SayTail(m1) == SayTail(m2)
    ensures m1 == m2
  {
    var t := SayTail(m1);
    assert t[12..|t| - 13] == m1;
    assert SayTail(m2)[12..|SayTail(m2)| - 13] == m2;
  }

  /** A comma-free text followed by a text opening with a comma splits back
      into the two. */
  lemma CommaSplit(d1: string, r1: string, d2: string, r2: string)
    requires ',' !in d1 && ',' !in d2 && |r1| > 0 && |r2| > 0 && r1[0] == ',' && r2[0] == ','
    requires d1 + r1 == d2 + r2
    ensures d1 == d2 && r1 == r2
  {
    FirstComma(d1, r1);
    FirstComma(d2, r2);
    assert |d1| == |d2|;
    assert d1 == (d1 + r1)[..|d1|];
    assert d2 == (d2 + r2)[..|d2|];
    assert r1 == (d1 + r1)[|d1|..];
    assert r2 == (d2 + r2)[|d2|..];
  }

  /** The say line determines its channel and its message. */
  lemma SayLineInjective(c1: int, m1: string, c2: int, m2: string)
    requires SayLine(c1, m1) == SayLine(c2, m2)
    ensures c1 == c2 && m1 == m2
  {
    SayLineSplit(c1, m1);
    SayLineSplit(c2, m2);
    var u1 := IntToStr(c1) + SayTail(m1);
    var u2 := IntToStr(c2) + SayTail(m2);
    assert u1 == SayLine(c1, m1)[6..];
    assert u2 == SayLine(c2, m2)[6..];
    CommaFree(c1);
    CommaFree(c2);
    CommaSplit(IntToStr(c1), SayTail(m1), IntToStr(c2), SayTail(m2));
    IntToStrInjective(c1, c2);
    SayTailInjective(m1, m2);
  }

  /** The decimal rendering of an integer holds no comma. */
  lemma CommaFree(n: int)
    ensures ',' !in IntToStr(n)
  {
    var d := IntToStr(n);
    forall i | 0 <= i < |d| ensures d[i] != ',' {
      if i > 0 || n >= 0 {
        assert '0' <= d[i] <= '9';
      }
    }
  }

  /** In a comma-free text followed by a text opening with a comma, the
      first comma is where the second text starts. */
  lemma FirstComma(d: string, rest: string)
    requires ',' !in d && |rest| > 0 && rest[0] == ','
    ensures Find(d + rest, ",", 0) == |d|
  {
    var u := d + rest;
    forall j | 0 <= j < |d| ensures !OccursAt(u, ",", j) {
      assert u[j..j + 1][0] == d[j];
    }
    assert u[|d|..|d| + 1] == ",";
    FindIsFirst(u, ",", 0, |d|);
  }

  /** Two say lines put into one event appear in call order, directly above
      the event's closing comment. */
  lemma SaysStack(doc: string, st: string, kind: EventKind, c1: int, m1: string, c2: int, m2: string)
    requires LocateEvent(doc, st, EventName(kind)).Ok?
    requires '}' !in m1
    ensures var p := LocateEvent(doc, st, EventName(kind)).value;
      var d1 := EventLine(doc, st, EventName(kind), SayLine(c1, m1));
      && d1.Ok? && d1.value.Some?
      && EventLine(d1.value.value, st, EventName(kind), SayLine(c2, m2))
         == Ok(Some(doc[..p] + (TAB + TAB + SayLine(c1, m1)) + (TAB + TAB + SayLine(c2, m2)) + doc[p..]))
  {
    SayLineFacts(c1, m1);
    SayLineFacts(c2, m2);
    CatalogueNameFacts(kind);
    assert ' ' !in EventName(kind) by {
      forall i | 0 <= i < |EventName(kind)| ensures EventName(kind)[i] != ' ' {
        assert IsNameChar(EventName(kind)[i]);
      }
    }
    EventLinesStack(doc, st, EventName(kind), SayLine(c1, m1), SayLine(c2, m2));
  }

  // ---------------------------------------------------------------------
  // `Func`.

  /** The line builders bound to one `Events` object and one event name. */
  class Func {
    const obj: Pkg.Events
    const eventName: string

    constructor (obj: Pkg.Events, eventName: string)
      ensures this.obj == obj && this.eventName == eventName
    {
      this.obj := obj;
      this.eventName := eventName;
    }

    /** Puts `line` into the bound event through `_event_should_contain`
        and stores what that returns, `None` included; an error leaves the
        document as it was. */
    method Put(line: string) returns (r: Result<Option<string>>)
      modifies obj.session
      ensures IsBlank(line) ==> r == Ok(None)
      ensures !IsBlank(line) && old(obj.session.script).None? ==> r == Err(NoneDocument)
      ensures !IsBlank(line) && old(obj.session.script).Some? ==>
        r == EventLine(old(obj.session.script).value, obj.stateName, eventName, line)
      ensures r.Ok? ==> obj.session.script == r.value
      ensures r.Err? ==> obj.session.script == old(obj.session.script)
      ensures obj.session.registry == old(obj.session.registry)
    {
      r := obj.EventShouldContain(eventName, line);
      if r.Ok? {
        obj.session.SetScript(r.value);
      }
    }

    /** `pySay`: the say line goes into the bound event. */
    method PySay(channel: int, message: string) returns (r: Result<Option<string>>)
      modifies obj.session
      ensures old(obj.session.script).None? ==> r == Err(NoneDocument)
      ensures old(obj.session.script).Some? ==>
        r == EventLine(old(obj.session.script).value, obj.stateName, eventName, SayLine(channel, message))
      ensures r.Ok? ==> r.value.Some? && obj.session.script == r.value
      ensures r.Err? ==> obj.session.script == old(obj.session.script)
      ensures obj.session.registry == old(obj.session.registry)
    {
      SayLineFacts(channel, message);
      r := Put(SayLine(channel, message));
    }

    /** `pyListen`: the listen line goes into the bound event. */
    method PyListen(channel: int, name: string, id: ValidKey, message: string, embed: bool) returns (r: Result<Option<string>>)
      modifies obj.session
      ensures old(obj.session.script).None? ==> r == Err(NoneDocument)
      ensures old(obj.session.script).Some? ==>
        r == EventLine(old(obj.session.script).value, obj.stateName, eventName, ListenLine(channel, name, id, message, embed))
      ensures r.Ok? ==> r.value.Some? && obj.session.script == r.value
      ensures r.Err? ==> obj.session.script == old(obj.session.script)
      ensures obj.session.registry == old(obj.session.registry)
    {
      ListenLineFacts(channel, name, id, message, embed);
      r := Put(ListenLine(channel, name, id, message, embed));
    }

    /** `pyMisc`: the text goes into the bound event verbatim; a blank text
        stores `None` as the document. */
    method PyMisc(whatever: string) returns (r: Result<Option<string>>)
      modifies obj.session
      ensures IsBlank(whatever) ==> r == Ok(None) && obj.session.script.None?
      ensures !IsBlank(whatever) && old(obj.session.script).None? ==> r == Err(NoneDocument)
      ensures !IsBlank(whatever) && old(obj.session.script).Some? ==>
        r == EventLine(old(obj.session.script).value, obj.stateName, eventName, whatever)
      ensures r.Ok? ==> obj.session.script == r.value
      ensures r.Err? ==> obj.session.script == old(obj.session.script)
      ensures obj.session.registry == old(obj.session.registry)
    {
      r := Put(whatever);
    }
  }
}
