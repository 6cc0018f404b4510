/** The package engine (`LSLpkg/LSLEvents.py`): a module-global document,
    a class-wide registry of printed states, and the `Events` class whose
    methods splice state, event and function skeletons into the document. */
module LSLEvents {
  import opened Outcomes
  import opened PyStr
  import opened LSLConst
  import opened Anchors

  // ---------------------------------------------------------------------
  // State labels.

  /** The label an `Events` object is created with: the stripped name, an
      error when an inner space is left, `default` for a blank name (or the
      name `default` itself), and `state <name>` for any other. */
  function StateLabel(name: string): (r: Result<string>)
    ensures r.Err? <==> ' ' in Strip(name)
    ensures r.Err? ==> r.error == InnerSpace
    ensures r.Ok? ==> (r.value == "default" <==> Strip(name) == "" || Strip(name) == "default")
    ensures r.Ok? && r.value != "default" ==> r.value == "state " + Strip(name)
  {
    var t := Strip(name);
    if ' ' in t then Err(InnerSpace)
    else if t == "" || t == "default" then Ok("default")
    else
      assert ("state " + t)[0] == 's';
      Ok("state " + t)
  }

  /** Surrounding whitespace never matters: a name and its stripped form
      give the same label. */
  lemma StateLabelIgnoresPadding(name: string)
    ensures StateLabel(Strip(name)) == StateLabel(name)
  {
    StripIdempotent(name);
  }

  /** A `state ` label gives back the stripped name it was made from, so
      distinct stripped names give distinct labels. */
  lemma StateLabelInjective(n1: string, n2: string)
    requires StateLabel(n1).Ok? && StateLabel(n2).Ok?
    requires StateLabel(n1) == StateLabel(n2)
    ensures Strip(n1) == Strip(n2) || {Strip(n1), Strip(n2)} <= {"", "default"}
  {
    var l := StateLabel(n1).value;
    if l != "default" {
      assert l[6..] == Strip(n1);
      assert l[6..] == Strip(n2);
    }
  }

  // ---------------------------------------------------------------------
  // What `_call_event` computes.

  /** `not (contents and contents.strip())` for a document that may be `None`. */
  predicate IsBlankDoc(doc: Option<string>) {
    doc.None? || IsBlank(doc.value)
  }

  /** The text `_call_event` produces from the document, the registry flag
      of the state and the event skeleton `blk`: a blank document becomes a
      state holding the event; otherwise an empty state skeleton is first
      appended when the flag is false, and the event goes before the
      right-most `}` of the whole text. `pad` is what the state's closing
      comment ends in (empty here, one space in the older engine). */
  function CallEventText(doc: Option<string>, printed: bool, state: string, blk: string, pad: string): (r: Result<string>)
    ensures r.Err? <==> !IsBlankDoc(doc) && printed && '}' !in doc.value
    ensures r.Err? ==> r.error == NoClosingBrace
  {
    if IsBlankDoc(doc) then Ok(StateBlock(state, blk, pad))
    else
      var base := if printed then doc.value else doc.value + StateBlock(state, "", pad);
      assert !printed ==> base[|doc.value| + |state| + 3] == '}';
      InsertBeforeLastBrace(base, blk)
  }

  /** On a blank document the event's handler is the first one of the new
      state, and the event line inserter finds its sentinel. */
  lemma CallEventOnBlank(doc: Option<string>, printed: bool, state: string, name: string, params: string, pad: string)
    requires IsBlankDoc(doc)
    requires name != [] && ' ' !in name && '\n' !in name && '{' !in name && '}' !in params
    ensures CallEventText(doc, printed, state, EventBlock(name, params), pad)
      == Ok(state + "\n{\n" + EventBlock(name, params) + StateClose(state, pad))
    ensures LocateEvent(state + "\n{\n" + EventBlock(name, params) + StateClose(state, pad), state, name)
      == Ok(|state| + 3 + EventBlockSentinelOffset(name, params))
  {
    SkeletonLocatable(state, name, params, StateClose(state, pad),
      state + "\n{\n" + EventBlock(name, params) + StateClose(state, pad));
  }

  /** On a non-blank document whose state is not yet printed, the result is
      the document followed by a new state holding just the event. */
  lemma CallEventOpensState(doc: string, state: string, blk: string, pad: string)
    requires !IsBlank(doc) && '}' !in state && '}' !in pad
    ensures CallEventText(Some(doc), false, state, blk, pad) == Ok(doc + StateBlock(state, blk, pad))
  {
    var pre := doc + state + "\n{\n";
    var tail := StateCloseTail(state, pad);
    CallEventTextUnprinted(doc, state, blk, pad);
    StateBlockAround(doc, state, blk, pad);
    StateCloseTailBraceFree(state, pad);
    InsertBeforeClosingBrace(pre, tail, blk);
  }

  /** On a non-blank document with an unprinted state, the event goes before
      the last brace of the document followed by an empty state. */
  lemma CallEventTextUnprinted(doc: string, state: string, blk: string, pad: string)
    requires !IsBlank(doc)
    ensures CallEventText(Some(doc), false, state, blk, pad) == InsertBeforeLastBrace(doc + StateBlock(state, "", pad), blk)
  {
  }

  /** A state block after a document, cut at the brace that closes it. */
  lemma StateBlockAround(doc: string, state: string, body: string, pad: string)
    ensures doc + StateBlock(state, body, pad) == (doc + state + "\n{\n") + body + "}" + StateCloseTail(state, pad)
    ensures doc + StateBlock(state, "", pad) == (doc + state + "\n{\n") + "}" + StateCloseTail(state, pad)
  {
    assert StateBlock(state, "", pad) == state + "\n{\n" + "}" + StateCloseTail(state, pad);
  }

  /** On a printed state the event goes before the `}` that closes the last
      state of the document, whichever object it is called through. */
  lemma CallEventIntoLastState(pre: string, tail: string, state: string, blk: string, pad: string)
    requires !IsBlank(pre + "}" + tail) && '}' !in tail
    ensures CallEventText(Some(pre + "}" + tail), true, state, blk, pad) == Ok(pre + blk + "}" + tail)
  {
    InsertBeforeClosingBrace(pre, tail, blk);
  }

  /** Two events registered for a printed state appear in call order. */
  lemma CallEventsInOrder(doc: string, state: string, b1: string, b2: string, pad: string)
    requires !IsBlank(doc) && '}' in doc
    ensures var p := RFind(doc, '}');
      && 0 <= p
      && CallEventText(Some(doc), true, state, b1, pad).Ok?
      && CallEventText(Some(CallEventText(Some(doc), true, state, b1, pad).value), true, state, b2, pad)
         == Ok(doc[..p] + b1 + b2 + doc[p..])
  {
    InsertsStackBeforeLastBrace(doc, b1, b2);
    var p := RFind(doc, '}');
    var d1 := doc[..p] + b1 + doc[p..];
    assert d1[|d1| - 1 - (|doc| - 1 - p)] == '}';
  }

  // ---------------------------------------------------------------------
  // The parameter lists the wrappers render.

  /** One `<type> <name>` binding per parameter. */
  function Bindings(types: seq<LslType>, names: seq<string>): (r: seq<string>)
    requires |types| == |names|
    ensures |r| == |types|
    ensures forall i :: 0 <= i < |r| ==> r[i] == TypeName(types[i]) + " " + names[i]
  {
    if |types| == 0 then [] else [TypeName(types[0]) + " " + names[0]] + Bindings(types[1..], names[1..])
  }

  /** The `params` text of a wrapper: its bindings joined with `", "`. */
  function RenderParams(types: seq<LslType>, names: seq<string>): string
    requires |types| == |names|
  {
    Join(Bindings(types, names), ", ")
  }

  /** `attach(key _id)` renders `key <id>`; a wrapper without parameters
      renders nothing. */
  lemma RenderParamsExamples(id: string)
    ensures RenderParams(Signature(Attach), [id]) == "key " + id
    ensures RenderParams(Signature(StateEntry), []) == ""
  {
    assert Signature(Attach) == [Key];
    assert Signature(StateEntry) == [];
    assert TypeName(Key) == "key";
    assert [Key][1..] == [] && [id][1..] == [];
  }

  /** Names without `}` give a parameter text without `}`. */
  lemma RenderParamsBraceFree(types: seq<LslType>, names: seq<string>)
    requires |types| == |names|
    requires forall i :: 0 <= i < |names| ==> '}' !in names[i]
    ensures '}' !in RenderParams(types, names)
  {
    var b := Bindings(types, names);
    forall k | 0 <= k < |b| ensures '}' !in b[k] {
      TypeNameChars(types[k]);
    }
    JoinWithout(b, ", ", '}');
  }

  /** The seven type names hold letters only. */
  lemma TypeNameChars(t: LslType)
    ensures '}' !in TypeName(t) && ' ' !in TypeName(t)
  {
  }

  // ---------------------------------------------------------------------
  // `add_function`.

  /** One of the seven LSL type names. */
  predicate IsTypeName(s: string) {
    s == "string" || s == "key" || s == "integer" || s == "float"
    || s == "vector" || s == "rotation" || s == "list"
  }

  lemma IsTypeNameExactly(s: string)
    ensures IsTypeName(s) <==> exists t: LslType :: TypeName(t) == s
  {
    if IsTypeName(s) {
      var t: LslType :|
        t == (if s == "string" then String else if s == "key" then Key else if s == "integer" then Integer
              else if s == "float" then Float else if s == "vector" then Vector else if s == "rotation" then Rotation else List);
      assert TypeName(t) == s;
    }
  }

  /** What `add_function` objects to in one `"<type> <name>"` pair, after
      splitting it on single spaces: the first piece is checked first, then
      the number of pieces. */
  function PairError(pair: string): Option<Error> {
    var pieces := Split(pair, ' ');
    if !IsTypeName(pieces[0]) then Some(BadType)
    else if |pieces| != 2 then Some(BadArity)
    else None
  }

  /** A pair is accepted exactly when it is a type name, one space, and a
      name without spaces. */
  lemma PairAccepted(pair: string)
    ensures PairError(pair) == None <==>
      exists t: LslType, n: string :: ' ' !in n && pair == TypeName(t) + " " + n
  {
    var pieces := Split(pair, ' ');
    if PairError(pair) == None {
      IsTypeNameExactly(pieces[0]);
      var t: LslType :| TypeName(t) == pieces[0];
      JoinSplit(pair, ' ');
      assert pair == TypeName(t) + " " + pieces[1];
    }
    if exists t: LslType, n: string :: ' ' !in n && pair == TypeName(t) + " " + n {
      var t: LslType, n: string :| ' ' !in n && pair == TypeName(t) + " " + n;
      TypeNameChars(t);
      SplitPair(TypeName(t), n, ' ');
      assert IsTypeName(TypeName(t));
    }
  }

  /** The error of the first rejected pair, in order. */
  function FirstPairError(pairs: seq<string>): Option<Error> {
    if |pairs| == 0 then None
    else if PairError(pairs[0]).Some? then PairError(pairs[0])
    else FirstPairError(pairs[1..])
  }

  /** No error is reported exactly when every pair is accepted, and a
      reported error is the error of some pair. */
  lemma {:induction false} FirstPairErrorMeans(pairs: seq<string>)
    ensures FirstPairError(pairs) == None <==> forall i :: 0 <= i < |pairs| ==> PairError(pairs[i]) == None
    ensures FirstPairError(pairs).Some? ==> exists i :: 0 <= i < |pairs| && FirstPairError(pairs) == PairError(pairs[i])
  {
    if |pairs| > 0 && PairError(pairs[0]).None? {
      FirstPairErrorMeans(pairs[1..]);
      if FirstPairError(pairs).Some? {
        var i :| 0 <= i < |pairs[1..]| && FirstPairError(pairs[1..]) == PairError(pairs[1..][i]);
        assert FirstPairError(pairs) == PairError(pairs[i + 1]);
      }
      forall i | 0 < i < |pairs| ensures pairs[i] == pairs[1..][i - 1] {
      }
    }
  }

  /** The pairs of all groups, in order. */
  function Flatten(groups: seq<seq<string>>): seq<string> {
    if |groups| == 0 then [] else groups[0] + Flatten(groups[1..])
  }

  lemma {:induction false} FlattenSnoc(groups: seq<seq<string>>, i: nat)
    requires i < |groups|
    ensures Flatten(groups[..i + 1]) == Flatten(groups[..i]) + groups[i]
  {
    if i == 0 {
      assert groups[..1] == [groups[0]];
      assert Flatten([groups[0]]) == groups[0] + Flatten([groups[0]][1..]);
      assert [groups[0]][1..] == [];
    } else {
      var g := groups[1..];
      assert groups[..i + 1] == [groups[0]] + g[..i];
      assert groups[..i] == [groups[0]] + g[..i - 1];
      FlattenSnoc(g, i - 1);
      assert g[..i - 1 + 1] == g[..i];
      assert ([groups[0]] + g[..i])[1..] == g[..i];
      assert ([groups[0]] + g[..i - 1])[1..] == g[..i - 1];
    }
  }

  lemma {:induction false} FlattenSplitAt(groups: seq<seq<string>>, i: nat)
    requires i <= |groups|
    ensures Flatten(groups) == Flatten(groups[..i]) + Flatten(groups[i..])
    decreases i
  {
    if i > 0 {
      FlattenSplitAt(groups, i - 1);
      FlattenSnoc(groups, i - 1);
      assert groups[i - 1..] == [groups[i - 1]] + groups[i..];
      assert Flatten(groups[i - 1..]) == groups[i - 1] + Flatten(groups[i..]);
    } else {
      assert groups[0..] == groups;
    }
  }

  /** Accepted pairs in front do not change which error is reported. */
  lemma {:induction false} FirstPairErrorAfter(a: seq<string>, b: seq<string>)
    requires FirstPairError(a) == None
    ensures FirstPairError(a + b) == FirstPairError(b)
  {
    if |a| > 0 {
      assert (a + b)[0] == a[0];
      assert (a + b)[1..] == a[1..] + b;
      FirstPairErrorAfter(a[1..], b);
    } else {
      assert a + b == b;
    }
  }

  /** `add_function`: every pair of every group is checked in order and the
      first bad one ends the call with its error; otherwise the function
      skeleton, with the pairs joined by `", "`, is put in front of
      `contents` and returned together with the name. */
  method AddFunction(contents: string, name: string, groups: seq<seq<string>>) returns (r: Result<(string, string)>)
    ensures FirstPairError(Flatten(groups)).Some? ==> r == Err(FirstPairError(Flatten(groups)).value)
    ensures FirstPairError(Flatten(groups)) == None ==>
      r == Ok((FunctionBlock(name, Join(Flatten(groups), ", ")) + contents, name))
  {
    var accepted: seq<string> := [];
    var i := 0;
    while i < |groups|
      invariant 0 <= i <= |groups|
      invariant accepted == Flatten(groups[..i])
      invariant FirstPairError(accepted) == None
    {
      var j := 0;
      while j < |groups[i]|
        invariant 0 <= j <= |groups[i]|
        invariant accepted == Flatten(groups[..i]) + groups[i][..j]
        invariant FirstPairError(accepted) == None
      {
        var pair := groups[i][j];
        var pieces := Split(pair, ' ');
        if !IsTypeName(pieces[0]) || |pieces| != 2 {
          ReportedError(groups, i, j, accepted);
          r := Err(PairError(pair).value);
          return;
        }
        AcceptedPair(groups, i, j, accepted);
        accepted := accepted + [pair];
        j := j + 1;
      }
      assert groups[i][..j] == groups[i];
      FlattenSnoc(groups, i);
      i := i + 1;
    }
    assert groups[..i] == groups;
    r := Ok((FunctionBlock(name, Join(accepted, ", ")) + contents, name));
  }

  /** A good pair extends the accepted prefix by one and keeps it free of
      errors. */
  lemma AcceptedPair(groups: seq<seq<string>>, i: nat, j: nat, accepted: seq<string>)
    requires i < |groups| && j < |groups[i]|
    requires accepted == Flatten(groups[..i]) + groups[i][..j]
    requires FirstPairError(accepted) == None
    requires PairError(groups[i][j]) == None
    ensures accepted + [groups[i][j]] == Flatten(groups[..i]) + groups[i][..j + 1]
    ensures FirstPairError(accepted + [groups[i][j]]) == None
  {
    FirstPairErrorAfter(accepted, [groups[i][j]]);
    assert groups[i][..j + 1] == groups[i][..j] + [groups[i][j]];
  }

  /** The pair the loops stop on carries the error of the whole list. */
  lemma ReportedError(groups: seq<seq<string>>, i: nat, j: nat, accepted: seq<string>)
    requires i < |groups| && j < |groups[i]|
    requires accepted == Flatten(groups[..i]) + groups[i][..j]
    requires FirstPairError(accepted) == None
    requires PairError(groups[i][j]).Some?
    ensures FirstPairError(Flatten(groups)) == PairError(groups[i][j])
  {
    var g := groups[i];
    var rest := g[j + 1..] + Flatten(groups[i + 1..]);
    FlattenAround(groups, i);
    CutAt(Flatten(groups[..i]), g, Flatten(groups[i + 1..]), j);
    FirstPairErrorAfter(accepted, [g[j]] + rest);
    assert FirstPairError([g[j]] + rest) == PairError(g[j]);
  }

  /** A concatenation cut just before the `j`-th element of its middle part. */
  lemma CutAt(a: seq<string>, g: seq<string>, b: seq<string>, j: nat)
    requires j < |g|
    ensures a + g + b == (a + g[..j]) + ([g[j]] + (g[j + 1..] + b))
  {
    assert g == g[..j] + [g[j]] + g[j + 1..];
  }

  lemma FlattenAround(groups: seq<seq<string>>, i: nat)
    requires i < |groups|
    ensures Flatten(groups) == Flatten(groups[..i]) + groups[i] + Flatten(groups[i + 1..])
  {
    FlattenSplitAt(groups, i);
    var t := groups[i..];
    assert t[0] == groups[i] && t[1..] == groups[i + 1..];
    assert Flatten(t) == groups[i] + Flatten(groups[i + 1..]);
  }

  /** The text `add_function` returns opens with the new function, which the
      function line inserters find, and ends with the old text. */
  lemma AddedFunctionLocatable(contents: string, name: string, groups: seq<seq<string>>)
    requires FirstPairError(Flatten(groups)) == None
    requires forall k :: 0 <= k < |Flatten(groups)| ==> '}' !in Flatten(groups)[k]
    ensures var params := Join(Flatten(groups), ", ");
      var text := FunctionBlock(name, params) + contents;
      && text[|FunctionBlock(name, params)|..] == contents
      && LocateFunction(text, name) == Ok(|name| + |params| + 5)
  {
    var params := Join(Flatten(groups), ", ");
    JoinWithout(Flatten(groups), ", ", '}');
    FunctionBlockLocatable(name, params, contents);
  }

  // ---------------------------------------------------------------------
  // The shared state and the `Events` class.

  /** The package's shared state: the module-global document `script`
      (a string, or `None` once a blank line's result has been stored) and
      the class-wide registry `__EVarray` from state label to "state
      skeleton already printed". */
  class Session {
    var script: Option<string>
    var registry: map<string, bool>

    /** A freshly imported package: an empty document and no states. */
    constructor ()
      ensures script == Some("") && registry == map[]
    {
      script := Some("");
      registry := map[];
    }

    /** `resetScript`: the document becomes empty; the registry stays. */
    method ResetScript()
      modifies this
      ensures script == Some("") && registry == old(registry)
    {
      script := Some("");
    }

    /** `getScript`. */
    method GetScript() returns (s: Option<string>)
      ensures s == script
    {
      s := script;
    }

    /** `setScript`: the document becomes `s`; the registry stays. */
    method SetScript(s: Option<string>)
      modifies this
      ensures script == s && registry == old(registry)
    {
      script := s;
    }
  }

  /** One state of the script being generated. */
  class Events {
    const session: Session
    const stateName: string
    var statePrinted: bool

    /** `Events(name)` for a name `StateLabel` accepts: the registry entry
        of the label is set to false, even when it was true. */
    constructor (session: Session, name: string)
      requires StateLabel(name).Ok?
      modifies session
      ensures this.session == session
      ensures stateName == StateLabel(name).value && !statePrinted
      ensures session.registry == old(session.registry)[stateName := false]
      ensures session.script == old(session.script)
    {
      this.session := session;
      stateName := StateLabel(name).value;
      statePrinted := false;
      new;
      session.registry := session.registry[stateName := false];
    }

    /** `Events(name)` for any name: a name with an inner space is refused
        before anything changes. */
    static method Create(session: Session, name: string) returns (r: Result<Events>)
      modifies session
      ensures r.Err? <==> ' ' in Strip(name)
      ensures r.Err? ==> r.error == InnerSpace
      ensures r.Err? ==> session.registry == old(session.registry) && session.script == old(session.script)
      ensures r.Ok? ==> fresh(r.value) && r.value.session == session && !r.value.statePrinted
      ensures r.Ok? ==> r.value.stateName == StateLabel(name).value
      ensures r.Ok? ==> session.registry == old(session.registry)[r.value.stateName := false]
      ensures r.Ok? ==> session.script == old(session.script)
    {
      match StateLabel(name)
      case Err(e) =>
        r := Err(e);
      case Ok(_) =>
        var ev := new Events(session, name);
        r := Ok(ev);
    }

    /** `__str__`: the state counts as printed from now on, both on the
        object and in the registry; the document is not touched. */
    method Str()
      modifies this, session
      ensures statePrinted
      ensures session.registry == old(session.registry)[stateName := true]
      ensures session.script == old(session.script)
    {
      statePrinted := true;
      session.registry := session.registry[stateName := true];
    }

    /** `_call_event`: the new document is `CallEventText` of the old one
        and of the state's registry flag; it is stored and returned, the
        flag becomes true, and `statePrinted` becomes true whenever a state
        skeleton was emitted. A label missing from the registry, or a
        document without `}`, leaves everything as it was. */
    method CallEvent(kind: EventKind, params: string) returns (r: Result<string>)
      modifies this, session
      ensures stateName !in old(session.registry) ==> r == Err(UnknownState)
      ensures stateName in old(session.registry) ==>
        r == CallEventText(old(session.script), old(session.registry[stateName]), stateName, EventBlock(EventName(kind), params), "")
      ensures r.Ok? ==> session.script == Some(r.value)
      ensures r.Ok? ==> session.registry == old(session.registry)[stateName := true]
      ensures r.Ok? ==>
        statePrinted == (IsBlankDoc(old(session.script)) || !old(session.registry[stateName]) || old(statePrinted))
      ensures r.Err? ==> session.script == old(session.script) && session.registry == old(session.registry)
      ensures r.Err? ==> statePrinted == old(statePrinted)
    {
      var doc := session.GetScript();
      if stateName !in session.registry {
        return Err(UnknownState);
      }
      var blk := EventBlock(EventName(kind), params);
      var contents: string;
      if IsBlankDoc(doc) {
        if session.registry[stateName] {
          statePrinted := false;
          session.registry := session.registry[stateName := false];
        }
        contents := StateBlock(stateName, blk, "");
        statePrinted := true;
        session.registry := session.registry[stateName := true];
      } else {
        contents := doc.value;
        if !session.registry[stateName] {
          contents := contents + StateBlock(stateName, "", "");
          statePrinted := true;
          session.registry := session.registry[stateName := true];
        }
        var pos := RFind(contents, '}');
        if pos == -1 {
          return Err(NoClosingBrace);
        }
        contents := Splice(contents, pos, blk);
      }
      session.SetScript(Some(contents));
      r := Ok(contents);
    }

    /** The wrapper of one event kind: the names are bound to the kind's
        parameter types and rendered into the event skeleton; a wrong number
        of names is refused before anything changes. */
    method Register(kind: EventKind, names: seq<string>) returns (r: Result<string>)
      modifies this, session
      ensures |names| != |Signature(kind)| ==> r == Err(WrongArgCount)
      ensures |names| == |Signature(kind)| && stateName !in old(session.registry) ==> r == Err(UnknownState)
      ensures |names| == |Signature(kind)| && stateName in old(session.registry) ==>
        r == CallEventText(old(session.script), old(session.registry[stateName]), stateName,
                           EventBlock(EventName(kind), RenderParams(Signature(kind), names)), "")
      ensures r.Ok? ==> session.script == Some(r.value)
      ensures r.Ok? ==> session.registry == old(session.registry)[stateName := true]
      ensures r.Ok? ==>
        statePrinted == (IsBlankDoc(old(session.script)) || !old(session.registry[stateName]) || old(statePrinted))
      ensures r.Err? ==> session.script == old(session.script) && session.registry == old(session.registry)
      ensures r.Err? ==> statePrinted == old(statePrinted)
    {
      if |names| != |Signature(kind)| {
        return Err(WrongArgCount);
      }
      r := CallEvent(kind, RenderParams(Signature(kind), names));
    }

    /** `_event_should_contain` for the event named `eventName` (each
        kind's `<kind>_event_should_contain` wrapper passes its kind's name):
        a blank line returns `None` and touches nothing; otherwise the
        document is edited as `EventLine` says, and stored only when the
        edit succeeds. A `None` document cannot be searched. */
    method EventShouldContain(eventName: string, line: string) returns (r: Result<Option<string>>)
      modifies session
      ensures IsBlank(line) ==> r == Ok(None)
      ensures !IsBlank(line) && old(session.script).None? ==> r == Err(NoneDocument)
      ensures !IsBlank(line) && old(session.script).Some? ==>
        r == EventLine(old(session.script).value, stateName, eventName, line)
      ensures r.Ok? && r.value.Some? ==> session.script == r.value
      ensures !(r.Ok? && r.value.Some?) ==> session.script == old(session.script)
      ensures session.registry == old(session.registry)
    {
      if IsBlank(line) {
        return Ok(None);
      }
      var doc := session.GetScript();
      if doc.None? {
        return Err(NoneDocument);
      }
      r := EventLine(doc.value, stateName, eventName, line);
      if r.Ok? && r.value.Some? {
        session.SetScript(r.value);
      }
    }
  }
}
