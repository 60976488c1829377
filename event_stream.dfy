/** The drawing surface's event log (`EventStream`) and its normalising
    serialiser `toJSON`: colour canonicalisation, linking of amending events
    into the shapes they target, the validity filter and the collapse of
    consecutive style changes. */
module EventStreams {
  import opened Values

  /** The `path` object an amending event carries: the event it amends.
      Only its `id` is read. */
  datatype Link = Link(id: Option<int>)

  /** A raw event as drawing controls push it. `kind` is the JavaScript
      `type` field; the empty string stands for a missing type. */
  datatype Event = Event(
    kind: string,
    id: Option<int>,
    args: Option<Args>,
    layout: Option<Args>,
    path: Option<Link>)

  /** An element of `this.normalized`: the working record `createEvent`
      builds from an event, later marked `deleted` or merged into. */
  datatype Rec = Rec(
    kind: string,
    id: Option<int>,
    args: Option<Args>,
    layout: Option<Args>,
    pathId: Option<int>,
    deleted: bool)

  /** An element of the serialised document: `{type, args, layout}` where
      each field is present only when truthy. */
  datatype Doc = Doc(kind: Option<string>, args: Option<Args>, layout: Option<Args>)

  /** The colour library's `Color(v).rgbaString()`, left abstract. */
  type Canon = Value -> string

  // ---------------------------------------------------------------------
  // createEvent

  /** `if (args[key]) args[key] = Color(args[key]).rgbaString()` */
  function SetRgb(m: Args, key: string, canon: Canon): (r: Args)
    ensures r.Keys == m.Keys
    ensures key in m && Truthy(m[key]) ==> r[key] == Str(canon(m[key]))
    ensures forall k :: k in m && !(k == key && Truthy(m[k])) ==> r[k] == m[k]
  {
    if Truthy(Get(m, key)) then m[key := Str(canon(m[key]))] else m
  }

  /** The copied `args` with `stroke` and `fill` rewritten. */
  function CanonArgs(m: Args, canon: Canon): (r: Args)
    ensures r.Keys == m.Keys
    ensures forall k :: k in m && (k == "stroke" || k == "fill") && Truthy(m[k]) ==> r[k] == Str(canon(m[k]))
    ensures forall k :: k in m && !((k == "stroke" || k == "fill") && Truthy(m[k])) ==> r[k] == m[k]
  {
    SetRgb(SetRgb(m, "stroke", canon), "fill", canon)
  }

  /** `createEvent`: a fresh record, never deleted, carrying the event's
      type, id and layout, the canonicalised copy of its args and the id
      of the event it links to. */
  function CreateEvent(e: Event, canon: Canon): (r: Rec)
    ensures !r.deleted
    ensures r.kind == e.kind && r.id == e.id && r.layout == e.layout
    ensures r.args.Some? <==> e.args.Some?
    ensures e.args.Some? ==> r.args.value.Keys == e.args.value.Keys
    ensures e.args.Some? ==> forall k :: k in e.args.value && (k == "stroke" || k == "fill") && Truthy(e.args.value[k]) ==>
              r.args.value[k] == Str(canon(e.args.value[k]))
    ensures e.args.Some? ==> forall k :: k in e.args.value && !((k == "stroke" || k == "fill") && Truthy(e.args.value[k])) ==>
              r.args.value[k] == e.args.value[k]
    ensures e.path.Some? ==> r.pathId == e.path.value.id
    ensures e.path.None? ==> r.pathId.None?
  {
    Rec(e.kind, e.id,
        if e.args.Some? then Some(CanonArgs(e.args.value, canon)) else None,
        e.layout,
        if e.path.Some? then e.path.value.id else None,
        false)
  }

  /** `this.events.map(createEvent)` */
  function Canonical(events: seq<Event>, canon: Canon): (rs: seq<Rec>)
    ensures |rs| == |events|
  {
    seq(|events|, i requires 0 <= i < |events| => CreateEvent(events[i], canon))
  }

  // ---------------------------------------------------------------------
  // processPath

  /** `if (event.pathId)`: a link to id 0 or to nothing is not followed. */
  predicate LinksOut(r: Rec)
  {
    r.pathId.Some? && r.pathId.value != 0
  }

  /** `self.normalized.filter(findById)[0]`: the first record with this id. */
  function FirstWithId(rs: seq<Rec>, id: int): (t: Option<nat>)
    ensures t.Some? ==> t.value < |rs| && rs[t.value].id == Some(id)
    ensures t.Some? ==> forall j :: 0 <= j < t.value ==> rs[j].id != Some(id)
    ensures t.None? ==> forall j :: 0 <= j < |rs| ==> rs[j].id != Some(id)
  {
    if rs == [] then None
    else if rs[0].id == Some(id) then Some(0)
    else
      match FirstWithId(rs[1..], id)
      case None => None
      case Some(t) => Some(t + 1)
  }

  /** The record that record `i` amends, if it links out and the link
      resolves. */
  function Target(rs: seq<Rec>, i: nat): Option<nat>
    requires i < |rs|
  {
    if LinksOut(rs[i]) then FirstWithId(rs, rs[i].pathId.value) else None
  }

  /** `processPath` applied to record `i`: the linker is marked deleted, its
      args are merged over the target's, and the target's `deleted` flag is
      then assigned whether the linker is a `delete`. When the target is
      the linker itself, the second assignment is the one that stays. */
  function ProcessLink(rs: seq<Rec>, i: nat): (r: seq<Rec>)
    requires i < |rs|
    ensures |r| == |rs|
  {
    match Target(rs, i)
    case None => rs
    case Some(t) =>
      var e := rs[i];
      var marked := rs[i := e.(deleted := true)];
      marked[t := marked[t].(args := Some(Xtend(marked[t].args, e.args)), deleted := e.kind == "delete")]
  }

  /** `this.normalized.forEach(processPath)` stopped after the first `n`
      records. Every step reads the records as the earlier steps left them. */
  function LinkPrefix(rs: seq<Rec>, n: nat): (r: seq<Rec>)
    requires n <= |rs|
    ensures |r| == |rs|
    decreases n
  {
    if n == 0 then rs else ProcessLink(LinkPrefix(rs, n - 1), n - 1)
  }

  /** The whole linking pass. */
  function Linked(rs: seq<Rec>): (r: seq<Rec>)
    ensures |r| == |rs|
  {
    LinkPrefix(rs, |rs|)
  }

  // ---------------------------------------------------------------------
  // validEvent

  /** `validEvent(r)` runs without throwing: a record that is not deleted
      dereferences `args.value` when it is text and `args.d.match` when it
      is a path. */
  predicate Checkable(r: Rec)
  {
    r.deleted ||
    ((r.kind == "text" ==> r.args.Some?) &&
     (r.kind == "path" ==> r.args.Some? && "d" in r.args.value && r.args.value["d"].Str?))
  }

  /** `validEvent` */
  function ValidEvent(r: Rec): (v: bool)
    requires Checkable(r)
    ensures v ==> !r.deleted
    ensures !r.deleted && r.kind == "text" ==>
              (v <==> "value" in r.args.value && Truthy(r.args.value["value"]))
    ensures !r.deleted && r.kind == "path" ==>
              (v <==> exists k :: 0 <= k < |r.args.value["d"].s| && IsLineOrArc(r.args.value["d"].s[k]))
    ensures !r.deleted && r.kind != "text" && r.kind != "path" ==>
              (v <==> (r.args.Some? && r.args.value != map[]) || (r.layout.Some? && r.layout.value != map[]))
  {
    if r.deleted then false
    else if r.kind == "text" then Truthy(Get(r.args.value, "value"))
    else if r.kind == "path" then HasLineOrArc(r.args.value["d"].s)
    else |OrEmpty(r.args)| + |OrEmpty(r.layout)| > 0
  }

  // ---------------------------------------------------------------------
  // reduce

  /** `['type', 'args', 'layout'].reduce(copyEvent, {})`: only truthy fields
      are copied; an object is truthy even when empty. */
  function CopyEvent(r: Rec): (d: Doc)
    ensures d.kind.Some? <==> r.kind != ""
    ensures d.kind.Some? ==> d.kind.value == r.kind
    ensures d.args == r.args && d.layout == r.layout
  {
    Doc(if r.kind != "" then Some(r.kind) else None, r.args, r.layout)
  }

  /** `result.pop()`, a no-op on an empty array. */
  function PopLast<T>(s: seq<T>): seq<T>
  {
    if s == [] then [] else s[..|s| - 1]
  }

  /** The state of the reduction: the output so far and the closure
      variable `lastType` ("" while it is `undefined`). */
  datatype Acc = Acc(result: seq<Doc>, lastType: string)

  /** One call of the `reduce` callback. The pop for a style following an
      accepted style comes before the validity check; `lastType` moves only
      when the record is accepted. */
  function ReduceStep(acc: Acc, r: Rec): (a: Acc)
    requires Checkable(r)
    ensures a.lastType == if ValidEvent(r) then r.kind else acc.lastType
  {
    var result := if r.kind == "style" && acc.lastType == "style" then PopLast(acc.result) else acc.result;
    if ValidEvent(r) then Acc(result + [CopyEvent(r)], r.kind) else Acc(result, acc.lastType)
  }

  predicate AllCheckable(rs: seq<Rec>)
  {
    forall i :: 0 <= i < |rs| ==> Checkable(rs[i])
  }

  /** `this.normalized.reduce(reduce, [])`, with `lastType` threaded
      through. The output never outgrows the input. */
  function Reduce(rs: seq<Rec>): (a: Acc)
    requires AllCheckable(rs)
    ensures |a.result| <= |rs|
  {
    if rs == [] then Acc([], "")
    else
      var prev := Reduce(rs[..|rs| - 1]);
      assert forall k :: 0 <= k < |rs| - 1 ==> rs[..|rs| - 1][k] == rs[k];
      ReduceStep(prev, rs[|rs| - 1])
  }

  // ---------------------------------------------------------------------
  // toJSON

  /** `toJSON` does not throw: `validEvent` can read every linked record. */
  predicate NormalizeDefined(events: seq<Event>, canon: Canon)
  {
    AllCheckable(Linked(Canonical(events, canon)))
  }

  /** The document `toJSON` returns for this log. */
  function Normalize(events: seq<Event>, canon: Canon): (out: seq<Doc>)
    requires NormalizeDefined(events, canon)
    ensures |out| <= |events|
  {
    Reduce(Linked(Canonical(events, canon))).result
  }

  /** `self.normalized.filter(findById)[0]` as the scan it is. */
  method FindById(a: array<Rec>, id: int) returns (t: Option<nat>)
    ensures t == FirstWithId(a[..], id)
  {
    var j := 0;
    while j < a.Length
      invariant 0 <= j <= a.Length
      invariant forall k :: 0 <= k < j ==> a[k].id != Some(id)
    {
      if a[j].id == Some(id) {
        return Some(j);
      }
      j := j + 1;
    }
    return None;
  }

  /** `this.normalized.forEach(processPath)`, updating the records in place. */
  method LinkInPlace(a: array<Rec>)
    modifies a
    ensures a[..] == Linked(old(a[..]))
  {
    ghost var orig := a[..];
    var i := 0;
    while i < a.Length
      invariant 0 <= i <= a.Length
      invariant a[..] == LinkPrefix(orig, i)
    {
      ghost var rs := a[..];
      var e := a[i];
      if LinksOut(e) {
        var t := FindById(a, e.pathId.value);
        if t.Some? {
          a[i] := e.(deleted := true);
          ghost var marked := a[..];
          assert marked == rs[i := e.(deleted := true)];
          var path := a[t.value];
          a[t.value] := path.(args := Some(Xtend(path.args, e.args)), deleted := e.kind == "delete");
          assert a[..] == marked[t.value := path.(args := Some(Xtend(path.args, e.args)), deleted := e.kind == "delete")];
        }
      }
      assert a[..] == ProcessLink(rs, i);
      assert LinkPrefix(orig, i + 1) == ProcessLink(LinkPrefix(orig, i), i);
      i := i + 1;
    }
  }

  /** `this.normalized.reduce(reduce, [])` as the loop it is: `result` is
      pushed and popped and `lastType` is reassigned as records go by. */
  method ReduceRecords(a: array<Rec>) returns (result: seq<Doc>)
    requires AllCheckable(a[..])
    ensures result == Reduce(a[..]).result
  {
    result := [];
    var lastType := "";
    for i := 0 to a.Length
      invariant Acc(result, lastType) == Reduce(a[..i])
    {
      var event := a[i];
      if event.kind == "style" && lastType == "style" {
        result := PopLast(result);
      }
      if ValidEvent(event) {
        lastType := event.kind;
        result := result + [CopyEvent(event)];
      }
      assert a[..i + 1][..i] == a[..i];
    }
    assert a[..a.Length] == a[..];
  }

  /** The event log: an array of events used as a stack, and the records of
      the last serialisation. */
  class EventStream {
    var events: seq<Event>
    var normalized: array?<Rec>

    /** `new EventStream()`: an empty log; nothing serialised yet. */
    constructor ()
      ensures events == [] && normalized == null
    {
      events := [];
      normalized := null;
    }

    /** `push`: appends the event and returns the new length. */
    method Push(event: Event) returns (length: nat)
      modifies this`events
      ensures events == old(events) + [event]
      ensures length == |events|
    {
      events := events + [event];
      length := |events|;
    }

    /** `pop`: removes and returns the most recent event, or `undefined`
        (`None`) when the log is empty. */
    method Pop() returns (event: Option<Event>)
      modifies this`events
      ensures old(events) == [] ==> event == None && events == []
      ensures old(events) != [] ==>
                event == Some(old(events)[|old(events)| - 1]) &&
                events == old(events)[..|old(events)| - 1]
    {
      if events == [] {
        event := None;
      } else {
        event := Some(events[|events| - 1]);
        events := events[..|events| - 1];
      }
    }

    /** `toJSON`: rebuilds `normalized` from the log, links it in place and
        reduces it to the document. The log itself is left as it was. */
    method ToJSON(canon: Canon) returns (out: seq<Doc>)
      requires NormalizeDefined(events, canon)
      modifies this`normalized
      ensures events == old(events)
      ensures normalized != null && fresh(normalized)
      ensures normalized[..] == Linked(Canonical(events, canon))
      ensures out == Normalize(events, canon)
    {
      var evs := events;
      var a := new Rec[|evs|](i requires 0 <= i < |evs| => CreateEvent(evs[i], canon));
      assert a[..] == Canonical(evs, canon);
      LinkInPlace(a);
      normalized := a;
      out := ReduceRecords(a);
    }
  }
}
