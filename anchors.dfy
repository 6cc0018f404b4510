/** The splicing core shared by both engines: text is placed in front of an
    anchor found with `find`/`rfind`, and the anchors are the sentinel
    comments the skeletons carry. */
module Anchors {
  import opened Outcomes
  import opened PyStr
  import opened LSLConst

  /** `s[:pos] + ins + s[pos:]`. */
  function Splice(s: string, pos: nat, ins: string): (r: string)
    requires pos <= |s|
    ensures |r| == |s| + |ins|
    ensures r[..pos] == s[..pos]
    ensures r[pos..pos + |ins|] == ins
    ensures r[pos + |ins|..] == s[pos..]
  {
    s[..pos] + ins + s[pos..]
  }

  /** Cutting the inserted text back out gives the original string. */
  lemma UnspliceRoundTrip(s: string, pos: nat, ins: string)
    requires pos <= |s|
    ensures var r := Splice(s, pos, ins); r[..pos] + r[pos + |ins|..] == s
  {
    var r := Splice(s, pos, ins);
    assert r[..pos] + r[pos + |ins|..] == s[..pos] + s[pos..];
    assert s[..pos] + s[pos..] == s;
  }

  /** The comment line closing an event: `    }  // End of '<name>' event`. */
  function EventSentinel(name: string): string {
    TAB + "}  // End of '" + name + "' event"
  }

  /** The comment line closing a function: `}  // End of '<name>' function`. */
  function FunctionSentinel(name: string): string {
    "}  // End of '" + name + "' function"
  }

  /** The empty skeleton of one event handler. */
  function EventBlock(name: string, params: string): string {
    TAB + name + "(" + params + ")\n" + TAB + "{\n" + EventSentinel(name) + "\n\n"
  }

  /** The empty skeleton of one function. */
  function FunctionBlock(name: string, params: string): string {
    name + "(" + params + ")\n{\n" + FunctionSentinel(name) + "\n\n"
  }

  /** A state skeleton around `body`. The closing comment ends in `pad`
      before the blank line: empty in the package engine, one space in the
      older engine. */
  function StateBlock(state: string, body: string, pad: string): string {
    state + "\n{\n" + body + StateClose(state, pad)
  }

  /** The line closing a state skeleton. */
  function StateClose(state: string, pad: string): string {
    "}" + StateCloseTail(state, pad)
  }

  /** What follows the `}` of the line closing a state skeleton. */
  function StateCloseTail(state: string, pad: string): string {
    "  // End of '" + state + "' state" + pad + "\n\n"
  }

  lemma StateCloseTailBraceFree(state: string, pad: string)
    requires '}' !in state && '}' !in pad
    ensures '}' !in StateCloseTail(state, pad)
  {
  }

  /** Where the event sentinel starts inside its block. */
  function EventBlockSentinelOffset(name: string, params: string): nat {
    |TAB + name + "(" + params + ")\n" + TAB + "{\n"|
  }

  lemma EventBlockHoldsSentinel(name: string, params: string)
    ensures OccursAt(EventBlock(name, params), EventSentinel(name), EventBlockSentinelOffset(name, params))
  {
    var head := TAB + name + "(" + params + ")\n" + TAB + "{\n";
    assert EventBlock(name, params) == head + EventSentinel(name) + "\n\n";
  }

  /** `doc[:p] + blk + doc[p:]` for the right-most `}` at `p`; an error when
      the document holds no `}` at all. */
  function InsertBeforeLastBrace(doc: string, blk: string): (r: Result<string>)
    ensures r.Err? <==> '}' !in doc
    ensures r.Err? ==> r.error == NoClosingBrace
  {
    var pos := RFind(doc, '}');
    if pos == -1 then
      assert forall j :: 0 <= j < |doc| ==> doc[j] != '}';
      Err(NoClosingBrace)
    else Ok(Splice(doc, pos, blk))
  }

  /** The block lands immediately before the right-most `}`, whichever it is. */
  lemma InsertBeforeLastBraceAt(doc: string, blk: string, p: nat)
    requires p < |doc| && doc[p] == '}'
    requires '}' !in doc[p + 1..]
    ensures InsertBeforeLastBrace(doc, blk) == Ok(doc[..p] + blk + doc[p..])
  {
  }

  // ---------------------------------------------------------------------
  // The anchor searches.

  /** The step both searches share: the first `key` at or after `start`,
      then the first `sent` after that key, each failing with its own error. */
  function LocateAnchor(doc: string, key: string, start: nat, sent: string, keyMissing: Error, sentMissing: Error): (r: Result<nat>)
    ensures r.Ok? ==> start <= r.value && r.value + |sent| <= |doc|
  {
    var p := Find(doc, key, start);
    if p == -1 then Err(keyMissing)
    else
      var q := Find(doc, sent, p + |key|);
      if q == -1 then Err(sentMissing) else Ok(q)
  }

  /** The three-stage search of the event line inserter: the first state
      label, then the first event name after it, then the first event
      sentinel after that. */
  function LocateEvent(doc: string, state: string, name: string): (r: Result<nat>)
    ensures r.Ok? ==> r.value + |EventSentinel(name)| <= |doc|
  {
    LocateInState(doc, state, name, EventSentinel(name))
  }

  /** The event search for any sentinel `sent`. */
  function LocateInState(doc: string, state: string, name: string, sent: string): (r: Result<nat>)
    ensures r.Ok? ==> r.value + |sent| <= |doc|
  {
    var p1 := Find(doc, state, 0);
    if p1 == -1 then Err(StateNotFound)
    else LocateAnchor(doc, name, p1 + |state|, sent, EventNotFound, SentinelNotFound)
  }

  /** The two-stage search of the function line inserters: the first
      function name, then the first function sentinel after it. */
  function LocateFunction(doc: string, name: string): (r: Result<nat>)
    ensures r.Ok? ==> r.value + |FunctionSentinel(name)| <= |doc|
  {
    LocateAnchor(doc, name, 0, FunctionSentinel(name), FunctionNotFound, FunctionEndNotFound)
  }

  /** The positions a successful anchor step passes through. */
  lemma LocateAnchorFinds(doc: string, key: string, start: nat, sent: string, e1: Error, e2: Error)
    requires LocateAnchor(doc, key, start, sent, e1, e2).Ok?
    ensures Find(doc, key, start) >= 0
    ensures Find(doc, sent, Find(doc, key, start) + |key|) == LocateAnchor(doc, key, start, sent, e1, e2).value
  {
  }

  /** The key position of an anchor step that stopped at `q`. */
  lemma LocateAnchorPositions(doc: string, key: string, start: nat, sent: string, e1: Error, e2: Error, q: nat) returns (p: nat)
    requires LocateAnchor(doc, key, start, sent, e1, e2) == Ok(q)
    ensures Find(doc, key, start) == p && Find(doc, sent, p + |key|) == q
  {
    LocateAnchorFinds(doc, key, start, sent, e1, e2);
    p := Find(doc, key, start);
  }

  /** The anchor step succeeds at `q` when its two finds succeed there. */
  lemma LocateAnchorByFinds(doc: string, key: string, start: nat, sent: string, e1: Error, e2: Error, p: nat, q: nat)
    requires Find(doc, key, start) == p && Find(doc, sent, p + |key|) == q
    ensures LocateAnchor(doc, key, start, sent, e1, e2) == Ok(q)
  {
  }

  /** `q` is the first `sub` after the `key` that sits at `p`. */
  predicate FirstPast(s: string, key: string, p: int, sub: string, q: int) {
    FirstFrom(s, sub, p + |key|, q)
  }

  /** No `sub` occurs after the `key` that sits at `p`. */
  ghost predicate NonePast(s: string, key: string, p: int, sub: string) {
    forall j :: p + |key| <= j ==> !OccursAt(s, sub, j)
  }

  /** There is only one first occurrence. */
  lemma FirstFromUnique(s: string, sub: string, start: int, p: int)
    requires FirstFrom(s, sub, start, p)
    ensures forall p' :: FirstFrom(s, sub, start, p') ==> p' == p
  {
  }

  /** Once the first `key` at or after `start` is known to sit at `p1`, the
      anchor step succeeds exactly at the first `sent` past that key, and
      fails with its second error exactly when no `sent` follows it. */
  lemma LocateAnchorFirst(doc: string, key: string, start: nat, sent: string, e1: Error, e2: Error, p1: nat)
    requires FirstFrom(doc, key, start, p1)
    ensures forall q: nat :: LocateAnchor(doc, key, start, sent, e1, e2) == Ok(q) <==> FirstPast(doc, key, p1, sent, q)
    ensures LocateAnchor(doc, key, start, sent, e1, e2) == Err(e2) <==> NonePast(doc, key, p1, sent)
    ensures LocateAnchor(doc, key, start, sent, e1, e2).Ok? || LocateAnchor(doc, key, start, sent, e1, e2) == Err(e2)
  {
    LocateAnchorFirstOk(doc, key, start, sent, e1, e2, p1);
    LocateAnchorFirstErr(doc, key, start, sent, e1, e2, p1);
  }

  /** The success half of `LocateAnchorFirst`. */
  lemma LocateAnchorFirstOk(doc: string, key: string, start: nat, sent: string, e1: Error, e2: Error, p1: nat)
    requires FirstFrom(doc, key, start, p1)
    ensures forall q: nat :: LocateAnchor(doc, key, start, sent, e1, e2) == Ok(q) <==> FirstPast(doc, key, p1, sent, q)
  {
    forall q: nat
      ensures LocateAnchor(doc, key, start, sent, e1, e2) == Ok(q) <==> FirstPast(doc, key, p1, sent, q)
    {
      LocateAnchorStopsAt(doc, key, start, sent, e1, e2, p1, q);
    }
  }

  /** The success half for one position `q`. */
  lemma LocateAnchorStopsAt(doc: string, key: string, start: nat, sent: string, e1: Error, e2: Error, p1: nat, q: nat)
    requires FirstFrom(doc, key, start, p1)
    ensures LocateAnchor(doc, key, start, sent, e1, e2) == Ok(q) <==> FirstPast(doc, key, p1, sent, q)
  {
    FindIsFirst(doc, key, start, p1);
    FindExactly(doc, sent, p1 + |key|, q);
  }

  /** The failure half of `LocateAnchorFirst`. */
  lemma LocateAnchorFirstErr(doc: string, key: string, start: nat, sent: string, e1: Error, e2: Error, p1: nat)
    requires FirstFrom(doc, key, start, p1)
    ensures LocateAnchor(doc, key, start, sent, e1, e2) == Err(e2) <==> NonePast(doc, key, p1, sent)
    ensures LocateAnchor(doc, key, start, sent, e1, e2).Ok? || LocateAnchor(doc, key, start, sent, e1, e2) == Err(e2)
  {
    FindIsFirst(doc, key, start, p1);
    var k := p1 + |key|;
    var q0 := Find(doc, sent, k);
    assert LocateAnchor(doc, key, start, sent, e1, e2) == if q0 == -1 then Err(e2) else Ok(q0);
    FindAbsent(doc, sent, k);
  }

  /** An anchor step stops on the first `sent` past the first `key`; it
      fails with its first error exactly when `key` occurs nowhere from
      `start` on, and with its second exactly when `key` occurs but no
      `sent` follows its first occurrence. */
  lemma LocateAnchorSpec(doc: string, key: string, start: nat, sent: string, e1: Error, e2: Error)
    requires e1 != e2
    ensures var r := LocateAnchor(doc, key, start, sent, e1, e2);
      && (r.Ok? ==> OccursAt(doc, sent, r.value))
      && (r.Ok? ==> exists p1 :: FirstFrom(doc, key, start, p1) && FirstPast(doc, key, p1, sent, r.value))
      && (r == Err(e1) <==> forall j :: start <= j ==> !OccursAt(doc, key, j))
      && (r == Err(e2) <==> exists p1 :: FirstFrom(doc, key, start, p1) && NonePast(doc, key, p1, sent))
      && (r.Err? ==> r.error in {e1, e2})
  {
    FindAbsent(doc, key, start);
    var p := Find(doc, key, start);
    if p >= 0 {
      FindFirst(doc, key, start);
      FirstFromUnique(doc, key, start, p);
      LocateAnchorFirst(doc, key, start, sent, e1, e2, p);
    }
  }

  /** Once the first state label sits at `p1`, the event search is the
      anchor step that starts right after that label. */
  lemma LocateInStateFirst(doc: string, state: string, name: string, sent: string, p1: nat)
    requires FirstFrom(doc, state, 0, p1)
    ensures LocateInState(doc, state, name, sent)
      == LocateAnchor(doc, name, p1 + |state|, sent, EventNotFound, SentinelNotFound)
  {
    FindIsFirst(doc, state, 0, p1);
  }

  /** Once the first state label sits at `p1`, the event search stops on the
      first `sent` past the first `name` past that label; it fails with
      `EventNotFound` exactly when no `name` follows the label, and with
      `SentinelNotFound` exactly when no `sent` follows that name. */
  lemma LocateInStateAfter(doc: string, state: string, name: string, sent: string, p1: nat)
    requires FirstFrom(doc, state, 0, p1)
    ensures var r := LocateInState(doc, state, name, sent);
      && (r.Ok? ==> exists p2 :: FirstPast(doc, state, p1, name, p2) && FirstPast(doc, name, p2, sent, r.value))
      && (r == Err(EventNotFound) <==> NonePast(doc, state, p1, name))
      && (r == Err(SentinelNotFound) <==> exists p2 :: FirstPast(doc, state, p1, name, p2) && NonePast(doc, name, p2, sent))
      && r != Err(StateNotFound)
  {
    LocateInStateFirst(doc, state, name, sent, p1);
    var start := p1 + |state|;
    var p2 := Find(doc, name, start);
    FindAbsent(doc, name, start);
    if p2 >= 0 {
      FindFirst(doc, name, start);
      FirstFromUnique(doc, name, start, p2);
      LocateAnchorFirst(doc, name, start, sent, EventNotFound, SentinelNotFound, p2);
      assert FirstPast(doc, state, p1, name, p2);
    } else {
      assert forall p2' :: !FirstPast(doc, state, p1, name, p2');
    }
  }

  /** An event search stops on the first sentinel past the first event
      name past the first state label. It fails with `StateNotFound`
      exactly when the label occurs nowhere, with `EventNotFound` exactly
      when no event name follows the first label, and with
      `SentinelNotFound` exactly when no sentinel follows the first such
      name. */
  lemma LocateInStateSpec(doc: string, state: string, name: string, sent: string)
    ensures var r := LocateInState(doc, state, name, sent);
      && (r.Ok? ==> OccursAt(doc, sent, r.value))
      && (r.Ok? ==> exists p1 :: (FirstFrom(doc, state, 0, p1) &&
            exists p2 :: FirstPast(doc, state, p1, name, p2) && FirstPast(doc, name, p2, sent, r.value)))
      && (r == Err(StateNotFound) <==> forall j :: !OccursAt(doc, state, j))
      && (r == Err(EventNotFound) <==> exists p1 :: FirstFrom(doc, state, 0, p1) && NonePast(doc, state, p1, name))
      && (r == Err(SentinelNotFound) <==>
            exists p1 :: (FirstFrom(doc, state, 0, p1) &&
            exists p2 :: FirstPast(doc, state, p1, name, p2) && NonePast(doc, name, p2, sent)))
      && (r.Err? ==> r.error in {StateNotFound, EventNotFound, SentinelNotFound})
  {
    FindAbsent(doc, state, 0);
    var p1 := Find(doc, state, 0);
    if p1 >= 0 {
      FindFirst(doc, state, 0);
      FirstFromUnique(doc, state, 0, p1);
      LocateInStateAfter(doc, state, name, sent, p1);
    }
    var r := LocateInState(doc, state, name, sent);
    if r.Ok? {
      LocateAnchorFinds(doc, name, p1 + |state|, sent, EventNotFound, SentinelNotFound);
      FindFirst(doc, sent, Find(doc, name, p1 + |state|) + |name|);
    }
  }

  /** The same for the event sentinel. */
  lemma LocateEventSpec(doc: string, state: string, name: string)
    ensures var r := LocateEvent(doc, state, name);
      && (r.Ok? ==> OccursAt(doc, EventSentinel(name), r.value))
      && (r.Ok? ==> exists p1 :: (FirstFrom(doc, state, 0, p1) &&
            exists p2 :: FirstPast(doc, state, p1, name, p2) && FirstPast(doc, name, p2, EventSentinel(name), r.value)))
      && (r == Err(StateNotFound) <==> forall j :: !OccursAt(doc, state, j))
      && (r == Err(EventNotFound) <==> exists p1 :: FirstFrom(doc, state, 0, p1) && NonePast(doc, state, p1, name))
      && (r == Err(SentinelNotFound) <==>
            exists p1 :: (FirstFrom(doc, state, 0, p1) &&
            exists p2 :: FirstPast(doc, state, p1, name, p2) && NonePast(doc, name, p2, EventSentinel(name))))
      && (r.Err? ==> r.error in {StateNotFound, EventNotFound, SentinelNotFound})
  {
    LocateInStateSpec(doc, state, name, EventSentinel(name));
  }

  /** A function search stops on the first function sentinel past the
      first occurrence of the name. It fails with `FunctionNotFound` exactly
      when the name occurs nowhere, and with `FunctionEndNotFound` exactly
      when no sentinel follows the first occurrence of the name. */
  lemma LocateFunctionSpec(doc: string, name: string)
    ensures var r := LocateFunction(doc, name);
      && (r.Ok? ==> OccursAt(doc, FunctionSentinel(name), r.value))
      && (r.Ok? ==> exists p1 :: FirstFrom(doc, name, 0, p1) && FirstPast(doc, name, p1, FunctionSentinel(name), r.value))
      && (r == Err(FunctionNotFound) <==> forall j :: !OccursAt(doc, name, j))
      && (r == Err(FunctionEndNotFound) <==>
            exists p1 :: FirstFrom(doc, name, 0, p1) && NonePast(doc, name, p1, FunctionSentinel(name)))
      && (r.Err? ==> r.error in {FunctionNotFound, FunctionEndNotFound})
  {
    LocateAnchorSpec(doc, name, 0, FunctionSentinel(name), FunctionNotFound, FunctionEndNotFound);
  }

  /** A key-then-sentinel search succeeds exactly when the key occurs at or
      after `start` and a sentinel follows its first occurrence. */
  lemma LocateAnchorSucceeds(doc: string, key: string, start: nat, sent: string, e1: Error, e2: Error)
    ensures LocateAnchor(doc, key, start, sent, e1, e2).Ok? <==>
      exists p1 :: (FirstFrom(doc, key, start, p1) && exists q :: FirstPast(doc, key, p1, sent, q))
  {
    FindAbsent(doc, key, start);
    var p := Find(doc, key, start);
    if p >= 0 {
      FindFirst(doc, key, start);
      FirstFromUnique(doc, key, start, p);
      LocateAnchorFirst(doc, key, start, sent, e1, e2, p);
    }
  }

  /** An event search succeeds exactly when the state label occurs, the
      name follows its first occurrence, and a sentinel follows the first
      name after that. */
  lemma LocateInStateSucceeds(doc: string, state: string, name: string, sent: string)
    ensures LocateInState(doc, state, name, sent).Ok? <==>
      exists p1 :: (FirstFrom(doc, state, 0, p1) &&
      exists p2 :: (FirstPast(doc, state, p1, name, p2) && exists q :: FirstPast(doc, name, p2, sent, q)))
  {
    FindAbsent(doc, state, 0);
    var p1 := Find(doc, state, 0);
    if p1 >= 0 {
      FindFirst(doc, state, 0);
      FirstFromUnique(doc, state, 0, p1);
      LocateInStateSucceedsAt(doc, state, name, sent, p1);
    } else {
      assert LocateInState(doc, state, name, sent) == Err(StateNotFound);
    }
  }

  /** With the first state label at `p1`, the event search succeeds exactly
      when the name follows `p1` and a sentinel follows that name. */
  lemma LocateInStateSucceedsAt(doc: string, state: string, name: string, sent: string, p1: nat)
    requires FirstFrom(doc, state, 0, p1)
    ensures LocateInState(doc, state, name, sent).Ok? <==>
      exists p2 :: (FirstPast(doc, state, p1, name, p2) && exists q :: FirstPast(doc, name, p2, sent, q))
  {
    LocateInStateFirst(doc, state, name, sent, p1);
    var start := p1 + |state|;
    var p2 := Find(doc, name, start);
    FindAbsent(doc, name, start);
    if p2 >= 0 {
      FindFirst(doc, name, start);
      FirstFromUnique(doc, name, start, p2);
      LocateAnchorFirst(doc, name, start, sent, EventNotFound, SentinelNotFound, p2);
      assert FirstPast(doc, state, p1, name, p2);
    } else {
      assert forall p2' :: !FirstPast(doc, state, p1, name, p2');
    }
  }

  /** The same for the event sentinel. */
  lemma LocateEventSucceeds(doc: string, state: string, name: string)
    ensures LocateEvent(doc, state, name).Ok? <==>
      exists p1 :: (FirstFrom(doc, state, 0, p1) &&
      exists p2 :: (FirstPast(doc, state, p1, name, p2) && exists q :: FirstPast(doc, name, p2, EventSentinel(name), q)))
  {
    LocateInStateSucceeds(doc, state, name, EventSentinel(name));
  }

  /** A function search succeeds exactly when the name occurs and a function
      sentinel follows its first occurrence. */
  lemma LocateFunctionSucceeds(doc: string, name: string)
    ensures LocateFunction(doc, name).Ok? <==>
      exists p1 :: (FirstFrom(doc, name, 0, p1) && exists q :: FirstPast(doc, name, p1, FunctionSentinel(name), q))
  {
    LocateAnchorSucceeds(doc, name, 0, FunctionSentinel(name), FunctionNotFound, FunctionEndNotFound);
  }

  /** An event search that stopped at `p` is the state label search
      followed by the anchor step after that label. */
  lemma LocateInStateSplit(doc: string, state: string, name: string, sent: string, p: nat) returns (p1: nat)
    requires LocateInState(doc, state, name, sent) == Ok(p)
    ensures Find(doc, state, 0) == p1
    ensures LocateAnchor(doc, name, p1 + |state|, sent, EventNotFound, SentinelNotFound) == Ok(p)
  {
    p1 := Find(doc, state, 0);
  }

  /** The event search succeeds at `q` when the state label is found and
      the anchor step after it succeeds at `q`. */
  lemma LocateInStateJoin(doc: string, state: string, name: string, sent: string, p1: nat, q: nat)
    requires Find(doc, state, 0) == p1
    requires LocateAnchor(doc, name, p1 + |state|, sent, EventNotFound, SentinelNotFound) == Ok(q)
    ensures LocateInState(doc, state, name, sent) == Ok(q)
  {
  }

  /** The event search succeeds at `q` when its three finds succeed there. */
  lemma LocateInStateByFinds(doc: string, state: string, name: string, sent: string, p1: nat, p2: nat, q: nat)
    requires Find(doc, state, 0) == p1 && Find(doc, name, p1 + |state|) == p2
    requires Find(doc, sent, p2 + |name|) == q
    ensures LocateInState(doc, state, name, sent) == Ok(q)
  {
    LocateAnchorByFinds(doc, name, p1 + |state|, sent, EventNotFound, SentinelNotFound, p2, q);
    LocateInStateJoin(doc, state, name, sent, p1, q);
  }

  /** `_event_should_contain` on a string document: a blank line gives
      `None`; otherwise two indentation units and the line go immediately in
      front of the located sentinel. */
  function EventLine(doc: string, state: string, name: string, line: string): (r: Result<Option<string>>)
    ensures IsBlank(line) ==> r == Ok(None)
    ensures !IsBlank(line) ==> match LocateEvent(doc, state, name)
      case Ok(p) => r == Ok(Some(doc[..p] + (TAB + TAB + line) + doc[p..]))
      case Err(e) => r == Err(e)
  {
    if IsBlank(line) then Ok(None)
    else match LocateEvent(doc, state, name)
      case Ok(p) => Ok(Some(Splice(doc, p, TAB + TAB + line)))
      case Err(e) => Err(e)
  }

  /** `function_should_contain`: one indentation unit and the line go in
      front of the located function sentinel; a blank line gives `None`. */
  function FunctionLine(name: string, doc: string, line: string): (r: Result<Option<string>>)
    ensures IsBlank(line) ==> r == Ok(None)
    ensures !IsBlank(line) ==> match LocateFunction(doc, name)
      case Ok(p) => r == Ok(Some(doc[..p] + (TAB + line) + doc[p..]))
      case Err(e) => r == Err(e)
  {
    if IsBlank(line) then Ok(None)
    else match LocateFunction(doc, name)
      case Ok(p) => Ok(Some(Splice(doc, p, TAB + line)))
      case Err(e) => Err(e)
  }

  /** `function_add_newline`: a bare line break goes in front of the located
      function sentinel. There is no blank-line exit. */
  function FunctionNewline(name: string, doc: string): (r: Result<string>)
    ensures match LocateFunction(doc, name)
      case Ok(p) => r == Ok(doc[..p] + "\n" + doc[p..])
      case Err(e) => r == Err(e)
  {
    match LocateFunction(doc, name)
    case Ok(p) => Ok(Splice(doc, p, "\n"))
    case Err(e) => Err(e)
  }

  /** Where `_event_should_contain` puts a line, stated by first
      occurrences: with the first state label at `p1` and the first event
      name past it at `p2`, a non-blank line goes in exactly when an event
      sentinel follows `p2`, and then right in front of the first one. */
  lemma EventLineAt(doc: string, state: string, name: string, line: string, p1: nat, p2: nat)
    requires !IsBlank(line)
    requires FirstFrom(doc, state, 0, p1) && FirstPast(doc, state, p1, name, p2)
    ensures EventLine(doc, state, name, line).Ok? <==> exists q :: FirstPast(doc, name, p2, EventSentinel(name), q)
    ensures forall q: nat :: FirstPast(doc, name, p2, EventSentinel(name), q) ==>
      EventLine(doc, state, name, line) == Ok(Some(doc[..q] + (TAB + TAB + line) + doc[q..]))
    ensures EventLine(doc, state, name, line).Err? ==> EventLine(doc, state, name, line) == Err(SentinelNotFound)
  {
    LocateInStateStops(doc, state, name, EventSentinel(name), p1, p2);
  }

  /** With the first state label at `p1` and the first `name` past it at
      `p2`, the event search stops exactly at the first `sent` past `p2`,
      and otherwise fails with `SentinelNotFound`. */
  lemma LocateInStateStops(doc: string, state: string, name: string, sent: string, p1: nat, p2: nat)
    requires FirstFrom(doc, state, 0, p1) && FirstPast(doc, state, p1, name, p2)
    ensures forall q: nat :: LocateInState(doc, state, name, sent) == Ok(q) <==> FirstPast(doc, name, p2, sent, q)
    ensures LocateInState(doc, state, name, sent).Ok? || LocateInState(doc, state, name, sent) == Err(SentinelNotFound)
  {
    LocateInStateFirst(doc, state, name, sent, p1);
    LocateAnchorFirst(doc, name, p1 + |state|, sent, EventNotFound, SentinelNotFound, p2);
  }

  /** Where `function_should_contain` puts a line: with the first
      occurrence of the name at `p1`, a non-blank line goes in exactly when
      a function sentinel follows it, and then right in front of the first
      one. */
  lemma FunctionLineAt(name: string, doc: string, line: string, p1: nat)
    requires !IsBlank(line)
    requires FirstFrom(doc, name, 0, p1)
    ensures FunctionLine(name, doc, line).Ok? <==> exists q :: FirstPast(doc, name, p1, FunctionSentinel(name), q)
    ensures forall q: nat :: FirstPast(doc, name, p1, FunctionSentinel(name), q) ==>
      FunctionLine(name, doc, line) == Ok(Some(doc[..q] + (TAB + line) + doc[q..]))
    ensures FunctionLine(name, doc, line).Err? ==> FunctionLine(name, doc, line) == Err(FunctionEndNotFound)
  {
    LocateAnchorFirst(doc, name, 0, FunctionSentinel(name), FunctionNotFound, FunctionEndNotFound, p1);
  }

  /** Where `function_add_newline` puts its line break: with the first
      occurrence of the name at `p1`, it goes in exactly when a function
      sentinel follows it, and then right in front of the first one. */
  lemma FunctionNewlineAt(name: string, doc: string, p1: nat)
    requires FirstFrom(doc, name, 0, p1)
    ensures FunctionNewline(name, doc).Ok? <==> exists q :: FirstPast(doc, name, p1, FunctionSentinel(name), q)
    ensures forall q: nat :: FirstPast(doc, name, p1, FunctionSentinel(name), q) ==>
      FunctionNewline(name, doc) == Ok(doc[..q] + "\n" + doc[q..])
    ensures FunctionNewline(name, doc).Err? ==> FunctionNewline(name, doc) == Err(FunctionEndNotFound)
  {
    LocateAnchorFirst(doc, name, 0, FunctionSentinel(name), FunctionNotFound, FunctionEndNotFound, p1);
  }

  /** When `_event_should_contain` fails before reaching a sentinel: with
      `StateNotFound` exactly when the label occurs nowhere, and with
      `EventNotFound` exactly when the event name does not follow the first
      label. */
  lemma EventLineFails(doc: string, state: string, name: string, line: string)
    requires !IsBlank(line)
    ensures EventLine(doc, state, name, line) == Err(StateNotFound) <==> forall j :: !OccursAt(doc, state, j)
    ensures EventLine(doc, state, name, line) == Err(EventNotFound) <==>
      exists p1 :: FirstFrom(doc, state, 0, p1) && NonePast(doc, state, p1, name)
  {
    LocateEventSpec(doc, state, name);
  }

  /** `function_should_contain` fails with `FunctionNotFound` exactly when the
      name occurs nowhere. */
  lemma FunctionLineFails(name: string, doc: string, line: string)
    requires !IsBlank(line)
    ensures FunctionLine(name, doc, line) == Err(FunctionNotFound) <==> forall j :: !OccursAt(doc, name, j)
  {
    LocateFunctionSpec(doc, name);
  }

  /** `function_add_newline` fails with `FunctionNotFound` exactly when the
      name occurs nowhere. */
  lemma FunctionNewlineFails(name: string, doc: string)
    ensures FunctionNewline(name, doc) == Err(FunctionNotFound) <==> forall j :: !OccursAt(doc, name, j)
  {
    LocateFunctionSpec(doc, name);
  }

  // ---------------------------------------------------------------------
  // How a search behaves once text has been spliced in.

  /** Slices inside a common prefix agree. */
  lemma PrefixSlices(s: string, t: string, p: nat, i: nat, j: nat)
    requires i <= j <= p <= |s| && p <= |t| && s[..p] == t[..p]
    ensures s[i..j] == t[i..j]
  {
    forall k | 0 <= k < j - i ensures s[i..j][k] == t[i..j][k] {
      assert s[i + k] == s[..p][i + k];
      assert t[i + k] == t[..p][i + k];
    }
  }

  /** A first occurrence that ends at or before the splice point is still
      the first occurrence afterwards. */
  lemma FindStableBefore(s: string, sub: string, start: nat, p: nat, ins: string)
    requires Find(s, sub, start) >= 0
    requires Find(s, sub, start) + |sub| <= p <= |s|
    ensures Find(Splice(s, p, ins), sub, start) == Find(s, sub, start)
  {
    var q := Find(s, sub, start);
    var t := Splice(s, p, ins);
    FindFirst(s, sub, start);
    PrefixSlices(s, t, p, q, q + |sub|);
    forall j | start <= j < q ensures !OccursAt(t, sub, j) {
      assert !OccursAt(s, sub, j);
      PrefixSlices(s, t, p, j, j + |sub|);
    }
    FindIsFirst(t, sub, start, q);
  }

  /** No occurrence of `sent` starts inside `ins` when `ins` is followed by `sent`. */
  predicate NoAnchorInside(ins: string, sent: string) {
    forall d :: 0 <= d < |ins| ==> !OccursAt(ins + sent, sent, d)
  }

  /** The suffix of `sent` from `m` on is a prefix of `ins + sent`. */
  predicate SuffixLeads(ins: string, sent: string, m: nat) {
    m <= |sent| && (ins + sent)[..|sent| - m] == sent[m..]
  }

  /** No proper suffix of `sent` is a prefix of `ins + sent`. */
  predicate NoAnchorAcross(ins: string, sent: string) {
    forall m: nat :: 0 < m < |sent| ==> !SuffixLeads(ins, sent, m)
  }

  /** Splicing at the first occurrence of an anchor pushes that occurrence
      along by the inserted length, when the inserted text cannot form a new
      occurrence by itself or together with what surrounds it. */
  lemma FindShiftsPastInsert(s: string, sent: string, start: nat, ins: string)
    requires Find(s, sent, start) >= 0
    requires NoAnchorInside(ins, sent) && NoAnchorAcross(ins, sent)
    ensures Find(Splice(s, Find(s, sent, start), ins), sent, start) == Find(s, sent, start) + |ins|
  {
    var p := Find(s, sent, start);
    var t := Splice(s, p, ins);
    FindFirst(s, sent, start);
    assert s[p..p + |sent|] == sent;
    assert t[p + |ins|..] == s[p..];
    assert t[p + |ins|..p + |ins| + |sent|] == sent by {
      assert t[p + |ins|..p + |ins| + |sent|] == s[p..][..|sent|];
    }
    NoEarlierAnchor(s, sent, start, p, ins);
    FindIsFirst(t, sent, start, p + |ins|);
  }

  /** Before the shifted anchor, the spliced text holds no anchor. */
  lemma NoEarlierAnchor(s: string, sent: string, start: nat, p: nat, ins: string)
    requires FirstFrom(s, sent, start, p)
    requires NoAnchorInside(ins, sent) && NoAnchorAcross(ins, sent)
    ensures forall j :: start <= j < p + |ins| ==> !OccursAt(Splice(s, p, ins), sent, j)
  {
    forall j | start <= j < p + |ins| ensures !OccursAt(Splice(s, p, ins), sent, j) {
      if j < p && j + |sent| <= p {
        AnchorNotBefore(s, sent, p, ins, j);
      } else if j < p {
        AnchorNotAcross(s, sent, p, ins, j);
      } else {
        AnchorNotInside(s, sent, p, ins, j);
      }
    }
  }

  /** An occurrence that ends before the splice point was there before. */
  lemma AnchorNotBefore(s: string, sent: string, p: nat, ins: string, j: nat)
    requires p <= |s| && j + |sent| <= p && !OccursAt(s, sent, j)
    ensures !OccursAt(Splice(s, p, ins), sent, j)
  {
    PrefixSlices(s, Splice(s, p, ins), p, j, j + |sent|);
  }

  /** What follows the splice point: the inserted text, then the old suffix,
      which starts with the anchor. */
  lemma SpliceTail(s: string, sent: string, p: nat, ins: string)
    requires p + |sent| <= |s| && s[p..p + |sent|] == sent
    ensures Splice(s, p, ins)[p..][..|ins| + |sent|] == ins + sent
  {
    var t := Splice(s, p, ins);
    assert t[p..] == ins + s[p..];
    assert (ins + s[p..])[..|ins| + |sent|] == ins + s[p..][..|sent|];
    assert s[p..][..|sent|] == sent;
  }

  /** An occurrence cannot start before the splice point and reach into the
      inserted text. */
  lemma AnchorNotAcross(s: string, sent: string, p: nat, ins: string, j: nat)
    requires p + |sent| <= |s| && s[p..p + |sent|] == sent
    requires j < p < j + |sent|
    requires NoAnchorAcross(ins, sent)
    ensures !OccursAt(Splice(s, p, ins), sent, j)
  {
    var t := Splice(s, p, ins);
    var m := p - j;
    var w := t[j..j + |sent|];
    SpliceTail(s, sent, p, ins);
    assert w[m..] == t[p..][..|sent| - m];
    assert t[p..][..|sent| - m] == (ins + sent)[..|sent| - m] by {
      assert t[p..][..|sent| - m] == t[p..][..|ins| + |sent|][..|sent| - m];
    }
    assert !SuffixLeads(ins, sent, m);
    assert w[m..] != sent[m..];
  }

  /** An occurrence cannot start inside the inserted text. */
  lemma AnchorNotInside(s: string, sent: string, p: nat, ins: string, j: nat)
    requires p + |sent| <= |s| && s[p..p + |sent|] == sent
    requires p <= j < p + |ins|
    requires NoAnchorInside(ins, sent)
    ensures !OccursAt(Splice(s, p, ins), sent, j)
  {
    var t := Splice(s, p, ins);
    var d := j - p;
    SpliceTail(s, sent, p, ins);
    assert !OccursAt(ins + sent, sent, d);
    assert t[j..j + |sent|] == t[p..][..|ins| + |sent|][d..d + |sent|];
  }

  // ---------------------------------------------------------------------
  // When a splice cannot create a new anchor.

  /** `c` occurs in `pre + n + post` only where it occurs in `pre` or `post`
      when `n` does not hold it. */
  lemma CharInFrame(pre: string, n: string, post: string, c: char, i: nat)
    requires c !in n && i < |pre + n + post| && (pre + n + post)[i] == c
    ensures i < |pre| ==> pre[i] == c
    ensures |pre| <= i ==> |pre| + |n| <= i && post[i - |pre| - |n|] == c
  {
  }

  /** A `}` at offset `b` of the anchor, and none before it: an anchor can
      only start where the text holds a `}` `b` places further on. */
  lemma FirstByBrace(s: string, sent: string, start: nat, p: nat, b: nat)
    requires start <= p && OccursAt(s, sent, p)
    requires b < |sent| && sent[b] == '}'
    requires forall i :: start + b <= i < p + b ==> s[i] != '}'
    ensures Find(s, sent, start) == p
  {
    forall j | start <= j < p ensures !OccursAt(s, sent, j) {
      if j + |sent| <= |s| {
        assert s[j..j + |sent|][b] == s[j + b];
      }
    }
    FindIsFirst(s, sent, start, p);
  }

  /** Text without `}` cannot hold an anchor that has a `}` at offset `b` and
      none before it. */
  lemma NoAnchorInsideByBrace(ins: string, sent: string, b: nat)
    requires b < |sent| && sent[b] == '}' && '}' !in sent[..b]
    requires '}' !in ins
    ensures NoAnchorInside(ins, sent)
  {
    var u := ins + sent;
    forall d | 0 <= d < |ins| ensures !OccursAt(u, sent, d) {
      if d + |sent| <= |u| {
        assert u[d..d + |sent|][b] == u[d + b];
        if d + b < |ins| {
          assert u[d + b] == ins[d + b];
        } else {
          assert u[d + b] == sent[d + b - |ins|] == sent[..b][d + b - |ins|];
        }
      }
    }
  }

  /** The head of the event sentinel, up to and including the opening quote. */
  const EventSentinelHead: string := "    }  // End of '"
  const EventSentinelTail: string := "' event"
  const FunctionSentinelHead: string := "}  // End of '"
  const FunctionSentinelTail: string := "' function"

  lemma EventSentinelFrame(name: string)
    ensures EventSentinel(name) == EventSentinelHead + name + EventSentinelTail
    ensures |EventSentinel(name)| == 25 + |name|
  {
  }

  lemma FunctionSentinelFrame(name: string)
    ensures FunctionSentinel(name) == FunctionSentinelHead + name + FunctionSentinelTail
    ensures |FunctionSentinel(name)| == 24 + |name|
  {
  }

  /** Past its four leading spaces the event sentinel never holds three
      spaces in a row, and never ends in a space: an offset `d < 8` shows a
      non-space for every suffix. */
  lemma EventGap(name: string, m: nat) returns (d: nat)
    requires ' ' !in name && 0 < m < |EventSentinel(name)|
    ensures d < 8 && m + d < |EventSentinel(name)| && EventSentinel(name)[m + d] != ' '
  {
    EventSentinelFrame(name);
    var n := |name|;
    if m < 4 {
      d := 4 - m;
    } else if m == 5 {
      d := 2;
    } else if m == 6 || m == 9 || m == 13 || m == 16 || m == 19 + n {
      d := 1;
    } else {
      d := 0;
    }
    if EventSentinel(name)[m + d] == ' ' {
      CharInFrame(EventSentinelHead, name, EventSentinelTail, ' ', m + d);
    }
  }

  /** The function sentinel never holds three spaces in a row past its `}`. */
  lemma FunctionGap(name: string, m: nat) returns (d: nat)
    requires ' ' !in name && 0 < m < |FunctionSentinel(name)|
    ensures d < 3 && m + d < |FunctionSentinel(name)| && FunctionSentinel(name)[m + d] != ' '
  {
    FunctionSentinelFrame(name);
    var n := |name|;
    if m == 1 {
      d := 2;
    } else if m == 2 || m == 5 || m == 9 || m == 12 || m == 15 + n {
      d := 1;
    } else {
      d := 0;
    }
    if FunctionSentinel(name)[m + d] == ' ' {
      CharInFrame(FunctionSentinelHead, name, FunctionSentinelTail, ' ', m + d);
    }
  }

  /** Two indentation units cannot continue an event sentinel. */
  lemma EventLineAcrossSafe(name: string, line: string)
    requires ' ' !in name
    ensures NoAnchorAcross(TAB + TAB + line, EventSentinel(name))
  {
    var ins := TAB + TAB + line;
    var sent := EventSentinel(name);
    var u := ins + sent;
    forall m: nat | 0 < m < |sent| ensures !SuffixLeads(ins, sent, m) {
      var d := EventGap(name, m);
      assert u[..|sent| - m][d] == ins[d] == ' ';
      assert sent[m..][d] == sent[m + d];
    }
  }

  /** One indentation unit cannot continue a function sentinel. */
  lemma FunctionLineAcrossSafe(name: string, line: string)
    requires ' ' !in name
    ensures NoAnchorAcross(TAB + line, FunctionSentinel(name))
  {
    var ins := TAB + line;
    var sent := FunctionSentinel(name);
    var u := ins + sent;
    forall m: nat | 0 < m < |sent| ensures !SuffixLeads(ins, sent, m) {
      var d := FunctionGap(name, m);
      assert u[..|sent| - m][d] == ins[d] == ' ';
      assert sent[m..][d] == sent[m + d];
    }
  }

  /** A line break cannot continue a function sentinel whose name has none. */
  lemma FunctionNewlineAcrossSafe(name: string)
    requires '\n' !in name
    ensures NoAnchorAcross("\n", FunctionSentinel(name))
  {
    var ins := "\n";
    var sent := FunctionSentinel(name);
    var u := ins + sent;
    FunctionSentinelFrame(name);
    forall m: nat | 0 < m < |sent| ensures !SuffixLeads(ins, sent, m) {
      assert u[..|sent| - m][0] == '\n';
      if sent[m] == '\n' {
        CharInFrame(FunctionSentinelHead, name, FunctionSentinelTail, '\n', m);
      }
      assert sent[m..][0] == sent[m];
    }
  }

  // ---------------------------------------------------------------------
  // What the searches find in the documents the engine builds.

  /** The anchor step, once `ins` goes in front of the anchor it found at
      `p`, finds that anchor again just past `ins`. */
  lemma AnchorShiftFrom(doc: string, key: string, start: nat, sent: string, ins: string, e1: Error, e2: Error, p: nat)
    requires LocateAnchor(doc, key, start, sent, e1, e2) == Ok(p)
    requires NoAnchorInside(ins, sent) && NoAnchorAcross(ins, sent)
    ensures p <= |doc|
    ensures LocateAnchor(Splice(doc, p, ins), key, start, sent, e1, e2) == Ok(p + |ins|)
  {
    var p1 := LocateAnchorPositions(doc, key, start, sent, e1, e2, p);
    FindStableBefore(doc, key, start, p, ins);
    FindShiftsPastInsert(doc, sent, p1 + |key|, ins);
    LocateAnchorByFinds(Splice(doc, p, ins), key, start, sent, e1, e2, p1, p + |ins|);
  }

  /** The in-state search, once `ins` goes in front of the anchor it found,
      finds that anchor again just past `ins`. */
  lemma InStateShift(doc: string, st: string, name: string, sent: string, ins: string, p: nat)
    requires LocateInState(doc, st, name, sent) == Ok(p)
    requires NoAnchorInside(ins, sent) && NoAnchorAcross(ins, sent)
    ensures p <= |doc|
    ensures LocateInState(Splice(doc, p, ins), st, name, sent) == Ok(p + |ins|)
  {
    var p1 := LocateInStateSplit(doc, st, name, sent, p);
    AnchorShiftFrom(doc, name, p1 + |st|, sent, ins, EventNotFound, SentinelNotFound, p);
    FindStableBefore(doc, st, 0, p, ins);
    LocateInStateJoin(Splice(doc, p, ins), st, name, sent, p1, p + |ins|);
  }

  /** The anchor step from the start, once `ins` goes in front of the anchor
      it found, finds that anchor again just past `ins`. */
  lemma AnchorShift(doc: string, key: string, sent: string, ins: string, e1: Error, e2: Error)
    requires LocateAnchor(doc, key, 0, sent, e1, e2).Ok?
    requires NoAnchorInside(ins, sent) && NoAnchorAcross(ins, sent)
    ensures var p := LocateAnchor(doc, key, 0, sent, e1, e2).value;
      p <= |doc| && LocateAnchor(Splice(doc, p, ins), key, 0, sent, e1, e2) == Ok(p + |ins|)
  {
    AnchorShiftFrom(doc, key, 0, sent, ins, e1, e2, LocateAnchor(doc, key, 0, sent, e1, e2).value);
  }

  /** Inserting text in front of the located event sentinel leaves the
      search finding that same sentinel, one inserted line further on. */
  lemma EventLineShifts(doc: string, st: string, name: string, line: string, ins: string, p: nat)
    requires LocateEvent(doc, st, name) == Ok(p)
    requires '}' !in line && ' ' !in name && ins == TAB + TAB + line
    ensures LocateEvent(Splice(doc, p, ins), st, name) == Ok(p + |ins|)
  {
    EventLineSafe(name, line);
    InStateShift(doc, st, name, EventSentinel(name), ins, p);
  }

  /** What `_event_should_contain` inserts cannot form a new sentinel. */
  lemma EventLineSafe(name: string, line: string)
    requires '}' !in line && ' ' !in name
    ensures NoAnchorInside(TAB + TAB + line, EventSentinel(name))
    ensures NoAnchorAcross(TAB + TAB + line, EventSentinel(name))
  {
    NoAnchorInsideByBrace(TAB + TAB + line, EventSentinel(name), 4);
    EventLineAcrossSafe(name, line);
  }

  /** Two lines put into one event appear in call order, directly above its
      sentinel, and nothing else changes. */
  lemma EventLinesStack(doc: string, st: string, name: string, l1: string, l2: string)
    requires LocateEvent(doc, st, name).Ok?
    requires !IsBlank(l1) && !IsBlank(l2)
    requires '}' !in l1 && ' ' !in name
    ensures var p := LocateEvent(doc, st, name).value;
      && EventLine(doc, st, name, l1).Ok? && EventLine(doc, st, name, l1).value.Some?
      && EventLine(EventLine(doc, st, name, l1).value.value, st, name, l2)
         == Ok(Some(doc[..p] + (TAB + TAB + l1) + (TAB + TAB + l2) + doc[p..]))
  {
    var p := LocateEvent(doc, st, name).value;
    var i1 := TAB + TAB + l1;
    var d1 := Splice(doc, p, i1);
    EventLineShifts(doc, st, name, l1, i1, p);
    assert d1[..p + |i1|] == doc[..p] + i1;
    assert d1[p + |i1|..] == doc[p..];
  }

  /** Inserting text in front of the located function sentinel leaves the
      search finding that sentinel, just past the inserted text. */
  lemma FunctionInsertShifts(doc: string, name: string, ins: string)
    requires LocateFunction(doc, name).Ok?
    requires NoAnchorInside(ins, FunctionSentinel(name)) && NoAnchorAcross(ins, FunctionSentinel(name))
    ensures var p := LocateFunction(doc, name).value;
      LocateFunction(Splice(doc, p, ins), name) == Ok(p + |ins|)
  {
    AnchorShift(doc, name, FunctionSentinel(name), ins, FunctionNotFound, FunctionEndNotFound);
  }

  /** What `function_should_contain` inserts cannot form a new sentinel. */
  lemma FunctionLineSafe(name: string, line: string)
    requires '}' !in line && ' ' !in name
    ensures NoAnchorInside(TAB + line, FunctionSentinel(name))
    ensures NoAnchorAcross(TAB + line, FunctionSentinel(name))
  {
    NoAnchorInsideByBrace(TAB + line, FunctionSentinel(name), 0);
    FunctionLineAcrossSafe(name, line);
  }

  /** What `function_add_newline` inserts cannot form a new sentinel. */
  lemma FunctionNewlineSafe(name: string)
    requires '\n' !in name
    ensures NoAnchorInside("\n", FunctionSentinel(name))
    ensures NoAnchorAcross("\n", FunctionSentinel(name))
  {
    NoAnchorInsideByBrace("\n", FunctionSentinel(name), 0);
    FunctionNewlineAcrossSafe(name);
  }

  /** A line, a line break and a line put into one function appear in call
      order directly above its sentinel. */
  lemma FunctionEditsStack(doc: string, name: string, a: string, c: string)
    requires LocateFunction(doc, name).Ok?
    requires !IsBlank(a) && !IsBlank(c)
    requires '}' !in a && ' ' !in name && '\n' !in name
    ensures var p := LocateFunction(doc, name).value;
      && FunctionLine(name, doc, a).Ok? && FunctionLine(name, doc, a).value.Some?
      && FunctionNewline(name, FunctionLine(name, doc, a).value.value).Ok?
      && FunctionLine(name, FunctionNewline(name, FunctionLine(name, doc, a).value.value).value, c)
         == Ok(Some(doc[..p] + (TAB + a) + "\n" + (TAB + c) + doc[p..]))
  {
    var p := LocateFunction(doc, name).value;
    var ia := TAB + a;
    var d1 := Splice(doc, p, ia);
    FunctionLineSafe(name, a);
    FunctionInsertShifts(doc, name, ia);
    var d2 := Splice(d1, p + |ia|, "\n");
    FunctionNewlineSafe(name);
    FunctionInsertShifts(d1, name, "\n");
    assert d2[..p + |ia| + 1] == doc[..p] + ia + "\n";
    assert d2[p + |ia| + 1..] == doc[p..];
  }

  /** The line after the skeleton's state label: an event handler opened for
      `name`, so the three-stage search finds the sentinel of that handler. */
  lemma SkeletonLocatable(st: string, name: string, params: string, rest: string, doc: string)
    requires name != [] && ' ' !in name && '\n' !in name && '{' !in name
    requires '}' !in params
    requires doc == st + "\n{\n" + EventBlock(name, params) + rest
    ensures LocateEvent(doc, st, name) == Ok(|st| + 3 + EventBlockSentinelOffset(name, params))
  {
    var p := |st| + 3 + EventBlockSentinelOffset(name, params);
    SkeletonHead(st, name, params, rest, doc);
    SkeletonBody(st, name, params, rest, doc, p);
    EventSentinelBrace(name);
    LocateInStateAt(doc, st, name, EventSentinel(name), |st| + 7, p, 4);
  }

  /** The event sentinel's first `}` sits after one indentation unit. */
  lemma EventSentinelBrace(name: string)
    ensures 4 < |EventSentinel(name)| && EventSentinel(name)[4] == '}'
    ensures '}' !in EventSentinel(name)[..4]
  {
    EventSentinelFrame(name);
    assert EventSentinel(name)[..4] == TAB;
  }

  /** The skeleton opens with the state label, and its first handler name
      follows the lines that open the state. */
  lemma SkeletonHead(st: string, name: string, params: string, rest: string, doc: string)
    requires name != [] && ' ' !in name && '\n' !in name && '{' !in name
    requires doc == st + "\n{\n" + EventBlock(name, params) + rest
    ensures && |st| <= |doc| && doc[..|st|] == st
      && OccursAt(doc, name, |st| + 7)
      && forall i :: |st| <= i < |st| + 7 ==> doc[i] != name[0]
  {
    var b := EventBlock(name, params);
    EventBlockHead(name, params);
    assert name[0] in name;
    forall j | 0 <= j < 4 ensures b[j] != name[0] {
      assert b[j] == b[..4][j];
    }
    LabelThenBlock(st, "\n{\n", b, rest, name, 4);
  }

  /** An event handler skeleton opens with one indentation unit and the name. */
  lemma EventBlockHead(name: string, params: string)
    ensures var b := EventBlock(name, params);
      && 4 + |name| <= |b| && b[..4] == TAB && b[4..4 + |name|] == name
  {
    var y := "(" + params + ")\n" + TAB + "{\n" + EventSentinel(name) + "\n\n";
    assert EventBlock(name, params) == TAB + name + y;
  }

  /** In `st + open + blk + rest`, the label opens the text, and when the
      name sits `k` places into `blk` with nothing before it able to start
      it, the name follows the label with no earlier start in between. */
  lemma LabelThenBlock(st: string, open: string, blk: string, rest: string, name: string, k: nat)
    requires name != [] && name[0] !in open
    requires k + |name| <= |blk| && blk[k..k + |name|] == name
    requires forall j :: 0 <= j < k ==> blk[j] != name[0]
    ensures var doc := st + open + blk + rest;
      && |st| <= |doc| && doc[..|st|] == st
      && OccursAt(doc, name, |st| + |open| + k)
      && forall i :: |st| <= i < |st| + |open| + k ==> doc[i] != name[0]
  {
    var doc := st + open + blk + rest;
    var a := |st| + |open|;
    assert doc[..|st|] == st;
    assert doc[a + k..a + k + |name|] == blk[k..k + |name|];
    forall i | |st| <= i < a + k ensures doc[i] != name[0] {
      if i < a {
        assert doc[i] == open[i - |st|];
      } else {
        assert doc[i] == blk[i - a];
      }
    }
  }

  /** Between the handler name and its sentinel the skeleton holds no `}`. */
  lemma SkeletonBody(st: string, name: string, params: string, rest: string, doc: string, p: nat)
    requires '}' !in params
    requires doc == st + "\n{\n" + EventBlock(name, params) + rest
    requires p == |st| + 3 + EventBlockSentinelOffset(name, params)
    ensures && |st| + 7 + |name| <= p && OccursAt(doc, EventSentinel(name), p)
      && forall i :: |st| + 7 + |name| + 4 <= i < p + 4 ==> doc[i] != '}'
  {
    var a := st + "\n{\n" + TAB + name;
    var b := "(" + params + ")\n" + TAB + "{\n";
    var sent := EventSentinel(name);
    SkeletonPieces(st, name, params, rest);
    assert '}' !in b;
    EventSentinelFrame(name);
    assert sent[..4] == TAB;
    BraceFreeGap(a, b, sent, "\n\n" + rest, 4);
  }

  /** The skeleton after a state's brace, cut at its sentinel. */
  lemma SkeletonPieces(st: string, name: string, params: string, rest: string)
    ensures var a := st + "\n{\n" + TAB + name;
      var b := "(" + params + ")\n" + TAB + "{\n";
      && st + "\n{\n" + EventBlock(name, params) + rest == a + b + EventSentinel(name) + ("\n\n" + rest)
      && |a| == |st| + 7 + |name|
      && |a| + |b| == |st| + 3 + EventBlockSentinelOffset(name, params)
  {
    var a := st + "\n{\n" + TAB + name;
    var b := "(" + params + ")\n" + TAB + "{\n";
    assert EventBlock(name, params) == TAB + name + b + EventSentinel(name) + "\n\n";
    assert st + "\n{\n" + (TAB + name + b + EventSentinel(name) + "\n\n") + rest
      == a + b + EventSentinel(name) + ("\n\n" + rest);
  }

  /** In `a + b + sent + tail`, `sent` sits right after `b`, and when
      neither `b` nor the first `k` characters of `sent` hold a `}`, there is
      none from `k` places into `b` to `k` places into `sent`. */
  lemma BraceFreeGap(a: string, b: string, sent: string, tail: string, k: nat)
    requires '}' !in b && k <= |sent| && '}' !in sent[..k]
    ensures var doc := a + b + sent + tail;
      && OccursAt(doc, sent, |a| + |b|)
      && forall i :: |a| + k <= i < |a| + |b| + k ==> doc[i] != '}'
  {
    var doc := a + b + sent + tail;
    var p := |a| + |b|;
    assert doc[p..p + |sent|] == sent;
    forall i | |a| + k <= i < p + k ensures doc[i] != '}' {
      if i < p {
        assert doc[i] == b[i - |a|];
      } else {
        assert doc[i] == sent[..k][i - p];
      }
    }
  }

  /** The in-state search stops at `p` when the state label opens the
      document, nothing between the label and the name at `q` can start the
      name, and nothing between the name and the anchor at `p` can be the
      anchor's first `}` (at offset `b`). */
  lemma LocateInStateAt(doc: string, st: string, name: string, sent: string, q: nat, p: nat, b: nat)
    requires |st| <= |doc| && doc[..|st|] == st
    requires name != [] && |st| <= q && OccursAt(doc, name, q)
    requires forall i :: |st| <= i < q ==> doc[i] != name[0]
    requires q + |name| <= p && OccursAt(doc, sent, p)
    requires b < |sent| && sent[b] == '}'
    requires forall i :: q + |name| + b <= i < p + b ==> doc[i] != '}'
    ensures LocateInState(doc, st, name, sent) == Ok(p)
  {
    FindIsFirst(doc, st, 0, 0);
    forall j | |st| <= j < q ensures !OccursAt(doc, name, j) {
      if j + |name| <= |doc| {
        assert doc[j..j + |name|][0] == doc[j];
      }
    }
    FindIsFirst(doc, name, |st|, q);
    FirstByBrace(doc, sent, q + |name|, p, b);
    LocateInStateByFinds(doc, st, name, sent, 0, q, p);
  }

  /** A function skeleton put in front of any text is found by the function
      search: the name at the start, then its sentinel. */
  lemma FunctionBlockLocatable(name: string, params: string, contents: string)
    requires '}' !in params
    ensures LocateFunction(FunctionBlock(name, params) + contents, name) == Ok(|name| + |params| + 5)
  {
    var b := "(" + params + ")\n{\n";
    var sent := FunctionSentinel(name);
    assert FunctionBlock(name, params) + contents == name + b + sent + ("\n\n" + contents);
    assert '}' !in b;
    AnchorAfterKey(name, b, sent, "\n\n" + contents, FunctionNotFound, FunctionEndNotFound);
  }

  /** An anchor that opens with `}` is found right after a leading key when
      nothing between them holds a `}`. */
  lemma AnchorAfterKey(key: string, b: string, sent: string, tail: string, e1: Error, e2: Error)
    requires '}' !in b && sent != [] && sent[0] == '}'
    ensures LocateAnchor(key + b + sent + tail, key, 0, sent, e1, e2) == Ok(|key| + |b|)
  {
    var doc := key + b + sent + tail;
    var p := |key| + |b|;
    assert doc[..|key|] == key;
    FindIsFirst(doc, key, 0, 0);
    BraceFreeGap(key, b, sent, tail, 0);
    FirstByBrace(doc, sent, |key|, p, 0);
    LocateAnchorByFinds(doc, key, 0, sent, e1, e2, 0, p);
  }

  /** A block put before the `}` that closes the last state lands inside it. */
  lemma InsertBeforeClosingBrace(pre: string, tail: string, blk: string)
    requires '}' !in tail
    ensures InsertBeforeLastBrace(pre + "}" + tail, blk) == Ok(pre + blk + "}" + tail)
  {
    var doc := pre + "}" + tail;
    assert doc[|pre| + 1..] == tail;
    InsertBeforeLastBraceAt(doc, blk, |pre|);
    assert doc[..|pre|] == pre;
    assert doc[|pre|..] == "}" + tail;
    assert pre + blk + "}" + tail == pre + blk + ("}" + tail);
  }

  /** Two blocks put one after the other before the right-most `}` appear in
      call order: the first block ends with a `}` of its own, but the
      right-most `}` is still the original one. */
  lemma InsertsStackBeforeLastBrace(doc: string, b1: string, b2: string)
    requires '}' in doc
    ensures var p := RFind(doc, '}');
      && 0 <= p
      && InsertBeforeLastBrace(doc, b1).Ok?
      && InsertBeforeLastBrace(InsertBeforeLastBrace(doc, b1).value, b2) == Ok(doc[..p] + b1 + b2 + doc[p..])
  {
    var p := RFind(doc, '}');
    InsertBeforeLastBraceAt(doc, b1, p);
    var d1 := doc[..p] + b1 + doc[p..];
    var q := p + |b1|;
    assert d1[q] == '}';
    assert d1[q + 1..] == doc[p + 1..];
    InsertBeforeLastBraceAt(d1, b2, q);
    assert d1[..q] == doc[..p] + b1;
    assert d1[q..] == doc[p..];
  }

  // ---------------------------------------------------------------------
  // Sentinels of different names do not contain one another.

  /** `pre` ends with the only quote it holds; `post` starts with the only
      quote it holds. */
  predicate QuoteFramed(pre: string, post: string) {
    && |pre| > 0 && pre[|pre| - 1] == '\'' && '\'' !in pre[..|pre| - 1]
    && |post| > 0 && post[0] == '\'' && '\'' !in post[1..]
  }

  lemma FramedNotNested(pre: string, post: string, n1: string, n2: string, j: nat)
    requires QuoteFramed(pre, post)
    requires '\'' !in n1 && '\'' !in n2
    requires OccursAt(pre + n2 + post, pre + n1 + post, j)
    ensures j == 0 && n1 == n2
  {
    var s1 := pre + n1 + post;
    var s2 := pre + n2 + post;
    var a := |pre| - 1;
    var e := |pre| + |n1|;
    assert s2[j..j + |s1|][a] == s1[a] == pre[a];
    assert s2[j..j + |s1|][e] == s1[e] == post[0];
    CharInFrame(pre, n2, post, '\'', j + a);
    CharInFrame(pre, n2, post, '\'', j + e);
    assert j == 0 && |n1| == |n2|;
    assert n1 == s1[|pre|..|pre| + |n1|];
    assert n2 == s2[|pre|..|pre| + |n2|];
  }

  /** The sentinel of one event name is never part of the sentinel of
      another, when neither name holds a quote: `'touch' event` is not inside
      `'touch_start' event`. */
  lemma EventSentinelsNotNested(n1: string, n2: string, j: nat)
    requires '\'' !in n1 && '\'' !in n2
    requires OccursAt(EventSentinel(n2), EventSentinel(n1), j)
    ensures n1 == n2 && j == 0
  {
    EventSentinelFrame(n1);
    EventSentinelFrame(n2);
    assert QuoteFramed(EventSentinelHead, EventSentinelTail);
    FramedNotNested(EventSentinelHead, EventSentinelTail, n1, n2, j);
  }

  /** The same for function sentinels. */
  lemma FunctionSentinelsNotNested(n1: string, n2: string, j: nat)
    requires '\'' !in n1 && '\'' !in n2
    requires OccursAt(FunctionSentinel(n2), FunctionSentinel(n1), j)
    ensures n1 == n2 && j == 0
  {
    FunctionSentinelFrame(n1);
    FunctionSentinelFrame(n2);
    assert QuoteFramed(FunctionSentinelHead, FunctionSentinelTail);
    FramedNotNested(FunctionSentinelHead, FunctionSentinelTail, n1, n2, j);
  }
}
