/** The older, single-file engine (`LSL.py`): the same skeleton splicing as
    the package, but the document is passed in and returned by every call,
    and the class-wide registry is a list of `[label, printed]` pairs that
    every new object appends to. */
module LSL {
  import opened Outcomes
  import opened PyStr
  import opened LSLConst
  import opened Anchors
  import Pkg = LSLEvents

  /** One `[label, printed]` entry of the class-wide list `EVarray`. */
  type Entry = (string, bool)

  /** The labels of the entries, in list order. */
  function Labels(pairs: seq<Entry>): (r: seq<string>)
    ensures |r| == |pairs|
    ensures forall i :: 0 <= i < |r| ==> r[i] == pairs[i].0
  {
    if |pairs| == 0 then [] else [pairs[0].0] + Labels(pairs[1..])
  }

  /** `pairs.index(e)`: the first position holding `e`, or -1 where Python
      raises `ValueError`. */
  function IndexOf(pairs: seq<Entry>, e: Entry): (r: int)
    ensures -1 <= r < |pairs|
    ensures r == -1 <==> e !in pairs
    ensures r >= 0 ==> pairs[r] == e && forall j :: 0 <= j < r ==> pairs[j] != e
  {
    if |pairs| == 0 then -1
    else if pairs[0] == e then 0
    else
      var k := IndexOf(pairs[1..], e);
      if k == -1 then -1 else k + 1
  }

  /** `pairs[pairs.index(e)] = f`. */
  function ReplaceFirst(pairs: seq<Entry>, e: Entry, f: Entry): seq<Entry>
    requires e in pairs
  {
    pairs[IndexOf(pairs, e) := f]
  }

  /** The first stage of the blank-document path: a printed entry of the
      state, if there is one, is set back to unprinted. */
  function FlipBack(pairs: seq<Entry>, st: string): seq<Entry> {
    if (st, true) in pairs then ReplaceFirst(pairs, (st, true), (st, false)) else pairs
  }

  /** The list after the blank-document path: `FlipBack`, then the first
      unprinted entry of the state is marked printed. */
  function BlankPairs(pairs: seq<Entry>, st: string): seq<Entry> {
    var p1 := FlipBack(pairs, st);
    if (st, false) in p1 then ReplaceFirst(p1, (st, false), (st, true)) else p1
  }

  /** The list after the non-blank path: the first unprinted entry of the
      state, if there is one, is marked printed. */
  function UnprintedPairs(pairs: seq<Entry>, st: string): seq<Entry> {
    if (st, false) in pairs then ReplaceFirst(pairs, (st, false), (st, true)) else pairs
  }

  /** Replacing an entry by one with the same label changes no label and no
      entry of another state. */
  lemma ReplaceFirstKeepsOthers(pairs: seq<Entry>, e: Entry, f: Entry)
    requires e in pairs && e.0 == f.0
    ensures Labels(ReplaceFirst(pairs, e, f)) == Labels(pairs)
    ensures forall i :: 0 <= i < |pairs| && pairs[i].0 != e.0 ==> ReplaceFirst(pairs, e, f)[i] == pairs[i]
    ensures ReplaceFirst(pairs, e, f)[IndexOf(pairs, e)] == f
  {
    var r := ReplaceFirst(pairs, e, f);
    assert forall i :: 0 <= i < |r| ==> Labels(r)[i] == Labels(pairs)[i];
  }

  /** `_call_event` never adds, removes or reorders states, and leaves the
      entries of every other state as they were, on either path. */
  lemma CallEventKeepsOthers(pairs: seq<Entry>, st: string)
    ensures Labels(BlankPairs(pairs, st)) == Labels(pairs)
    ensures Labels(UnprintedPairs(pairs, st)) == Labels(pairs)
    ensures forall i :: 0 <= i < |pairs| && pairs[i].0 != st ==>
      BlankPairs(pairs, st)[i] == pairs[i] && UnprintedPairs(pairs, st)[i] == pairs[i]
  {
    if (st, true) in pairs {
      ReplaceFirstKeepsOthers(pairs, (st, true), (st, false));
    }
    var p1 := FlipBack(pairs, st);
    if (st, false) in p1 {
      ReplaceFirstKeepsOthers(p1, (st, false), (st, true));
    }
    if (st, false) in pairs {
      ReplaceFirstKeepsOthers(pairs, (st, false), (st, true));
    }
  }

  /** A registered state whose list holds no entry `(st, b)` has one with the
      other flag. */
  lemma EntryOfLabel(pairs: seq<Entry>, st: string, b: bool)
    requires st in Labels(pairs) && (st, b) !in pairs
    ensures (st, !b) in pairs
  {
    var i :| 0 <= i < |pairs| && Labels(pairs)[i] == st;
    var f := pairs[i].1;
    assert pairs[i] == (st, f);
    assert (st, f) in pairs;
    assert f == !b;
  }

  /** A registered state always has an unprinted entry once `FlipBack`
      has run, so the `index` of the blank-document path cannot fail for an
      object whose constructor registered its label. */
  lemma BlankIndexFound(pairs: seq<Entry>, st: string)
    requires st in Labels(pairs)
    ensures (st, false) in FlipBack(pairs, st)
  {
    if (st, true) in pairs {
      ReplaceFirstKeepsOthers(pairs, (st, true), (st, false));
    } else {
      EntryOfLabel(pairs, st, true);
    }
  }

  /** After the blank-document path, a registered state has a printed entry. */
  lemma BlankMarksPrinted(pairs: seq<Entry>, st: string)
    requires st in Labels(pairs)
    ensures (st, true) in BlankPairs(pairs, st)
  {
    BlankIndexFound(pairs, st);
    var p1 := FlipBack(pairs, st);
    var k := IndexOf(p1, (st, false));
    assert BlankPairs(pairs, st)[k] == (st, true);
  }

  /** After the non-blank path, a registered state has a printed entry. */
  lemma UnprintedMarksPrinted(pairs: seq<Entry>, st: string)
    requires st in Labels(pairs)
    ensures (st, true) in UnprintedPairs(pairs, st)
  {
    if (st, false) in pairs {
      var k := IndexOf(pairs, (st, false));
      assert UnprintedPairs(pairs, st)[k] == (st, true);
    } else {
      EntryOfLabel(pairs, st, false);
    }
  }

  /** Two objects of one state leave two entries: after the first has
      emitted the state into a non-blank document, the second still finds an
      unprinted entry and emits the state skeleton a second time. */
  lemma SecondObjectReopensState(st: string)
    ensures UnprintedPairs([(st, false), (st, false)], st) == [(st, true), (st, false)]
    ensures (st, false) in UnprintedPairs([(st, false), (st, false)], st)
  {
    assert IndexOf([(st, false), (st, false)], (st, false)) == 0;
    assert [(st, false), (st, false)][0 := (st, true)] == [(st, true), (st, false)];
  }

  /** The text result of `__call_event` paired with its `params`. */
  function WithParams(t: Result<string>, params: string): Result<(string, string)> {
    match t
    case Ok(c) => Ok((c, params))
    case Err(e) => Err(e)
  }

  /** The class-wide list `EVarray`, shared by every object. */
  class Registry {
    var pairs: seq<Entry>

    /** The list as the module is loaded: empty. */
    constructor ()
      ensures pairs == []
    {
      pairs := [];
    }
  }

  /** One state of the script being generated, in the older engine. */
  class LSLEvents {
    const registry: Registry
    const stateName: string
    var statePrinted: bool

    /** `LSLEvents(name)` for a name `StateLabel` accepts: an unprinted entry
        for the label is appended to the list, even when one is there. */
    constructor (registry: Registry, name: string)
      requires Pkg.StateLabel(name).Ok?
      modifies registry
      ensures this.registry == registry
      ensures stateName == Pkg.StateLabel(name).value && !statePrinted
      ensures registry.pairs == old(registry.pairs) + [(stateName, false)]
    {
      this.registry := registry;
      stateName := Pkg.StateLabel(name).value;
      statePrinted := false;
      new;
      registry.pairs := registry.pairs + [(stateName, false)];
    }

    /** `LSLEvents(name)` for any name: a name with an inner space is
        refused before anything changes. */
    static method Create(registry: Registry, name: string) returns (r: Result<LSLEvents>)
      modifies registry
      ensures r.Err? <==> ' ' in Strip(name)
      ensures r.Err? ==> r.error == InnerSpace && registry.pairs == old(registry.pairs)
      ensures r.Ok? ==> fresh(r.value) && r.value.registry == registry && !r.value.statePrinted
      ensures r.Ok? ==> r.value.stateName == Pkg.StateLabel(name).value
      ensures r.Ok? ==> registry.pairs == old(registry.pairs) + [(r.value.stateName, false)]
    {
      match Pkg.StateLabel(name)
      case Err(e) =>
        r := Err(e);
      case Ok(_) =>
        var ev := new LSLEvents(registry, name);
        r := Ok(ev);
    }

    /** `__str__`: the label followed by an empty pair of braces; neither the
        object nor the list changes. */
    method Str() returns (s: string)
      ensures s == stateName + " {\n}\n\n"
    {
      s := stateName + " {\n}\n\n";
    }

    /** `__call_event`: the text is `CallEventText` with the state counted as
        printed when the list holds no unprinted entry for it, and a closing
        comment ending in one space; it is returned with `params`. The list
        becomes `BlankPairs` or `UnprintedPairs` of the old one.
        `statePrinted` becomes true on the blank path only, before the
        `index` that fails (`UnknownState`) when the label has no entry. */
    method CallEvent(kind: EventKind, contents: Option<string>, params: string) returns (r: Result<(string, string)>)
      modifies this, registry
      ensures Pkg.IsBlankDoc(contents) && stateName !in Labels(old(registry.pairs)) ==> r == Err(UnknownState)
      ensures !(Pkg.IsBlankDoc(contents) && stateName !in Labels(old(registry.pairs))) ==>
        r == WithParams(Pkg.CallEventText(contents, (stateName, false) !in old(registry.pairs), stateName,
                                          EventBlock(EventName(kind), params), " "), params)
      ensures registry.pairs == if Pkg.IsBlankDoc(contents) then BlankPairs(old(registry.pairs), stateName)
                                else UnprintedPairs(old(registry.pairs), stateName)
      ensures statePrinted == (Pkg.IsBlankDoc(contents) || old(statePrinted))
    {
      var blk := EventBlock(EventName(kind), params);
      if Pkg.IsBlankDoc(contents) {
        var k := IndexOf(registry.pairs, (stateName, true));
        if k != -1 {
          statePrinted := false;
          registry.pairs := registry.pairs[k := (stateName, statePrinted)];
        }
        var text := StateBlock(stateName, blk, " ");
        statePrinted := true;
        k := IndexOf(registry.pairs, (stateName, false));
        if k == -1 {
          assert (stateName, false) !in FlipBack(old(registry.pairs), stateName);
          if stateName in Labels(old(registry.pairs)) {
            BlankIndexFound(old(registry.pairs), stateName);
          }
          return Err(UnknownState);
        }
        registry.pairs := registry.pairs[k := (stateName, statePrinted)];
        r := Ok((text, params));
      } else {
        var text := contents.value;
        var k := IndexOf(registry.pairs, (stateName, false));
        if k != -1 {
          text := text + StateBlock(stateName, "", " ");
          registry.pairs := registry.pairs[k := (stateName, true)];
        }
        var pos := RFind(text, '}');
        if pos == -1 {
          return Err(NoClosingBrace);
        }
        text := Splice(text, pos, blk);
        r := Ok((text, params));
      }
    }

    /** The wrapper of one event kind: the names are bound to the kind's
        parameter types and rendered into the event skeleton; a wrong number
        of names is refused before anything changes. */
    method Register(kind: EventKind, contents: Option<string>, names: seq<string>) returns (r: Result<(string, string)>)
      modifies this, registry
      ensures |names| != |Signature(kind)| ==> r == Err(WrongArgCount)
      ensures |names| != |Signature(kind)| ==> registry.pairs == old(registry.pairs) && statePrinted == old(statePrinted)
      ensures |names| == |Signature(kind)| && Pkg.IsBlankDoc(contents) && stateName !in Labels(old(registry.pairs)) ==>
        r == Err(UnknownState)
      ensures |names| == |Signature(kind)| && !(Pkg.IsBlankDoc(contents) && stateName !in Labels(old(registry.pairs))) ==>
        var params := Pkg.RenderParams(Signature(kind), names);
        r == WithParams(Pkg.CallEventText(contents, (stateName, false) !in old(registry.pairs), stateName,
                                          EventBlock(EventName(kind), params), " "), params)
      ensures |names| == |Signature(kind)| ==>
        registry.pairs == (if Pkg.IsBlankDoc(contents) then BlankPairs(old(registry.pairs), stateName)
                           else UnprintedPairs(old(registry.pairs), stateName))
        && statePrinted == (Pkg.IsBlankDoc(contents) || old(statePrinted))
    {
      if |names| != |Signature(kind)| {
        return Err(WrongArgCount);
      }
      r := CallEvent(kind, contents, Pkg.RenderParams(Signature(kind), names));
    }

    /** `__event_should_contain` (and each `<kind>_event_should_contain`
        wrapper) on the document passed in: a blank line gives `None`; a
        `None` document cannot be searched; otherwise the edit is
        `EventLine`'s. Nothing is stored. */
    method EventShouldContain(kind: EventKind, contents: Option<string>, line: string) returns (r: Result<Option<string>>)
      ensures IsBlank(line) ==> r == Ok(None)
      ensures !IsBlank(line) && contents.None? ==> r == Err(NoneDocument)
      ensures !IsBlank(line) && contents.Some? ==> r == EventLine(contents.value, stateName, EventName(kind), line)
    {
      if IsBlank(line) {
        return Ok(None);
      }
      if contents.None? {
        return Err(NoneDocument);
      }
      r := EventLine(contents.value, stateName, EventName(kind), line);
    }
  }
}
