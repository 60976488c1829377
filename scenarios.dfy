/** Small logs and the documents `toJSON` makes of them: the documented
    behaviours (deletion, validity, style collapse, the undo/redo round trip)
    and the quirks of the code as written. Each log is stated for every
    id, path description and colour that fits its shape; the colour library
    stays abstract (`canon` is any function). */
module Scenarios {
  import opened Values
  import opened EventStreams
  import opened ReduceProperties

  // ---------------------------------------------------------------------
  // Events as the drawing controls push them, and their records

  /** A freehand line or shape with path description `d`. */
  function PathEvent(id: int, d: string): Event
  {
    Event("path", Some(id), Some(map["d" := Str(d)]), None, None)
  }

  /** What the controls push when a shape is deleted (index.js:116-124). */
  function DeleteEvent(target: int): Event
  {
    Event("delete", None, Some(map[]), None, Some(Link(Some(target))))
  }

  /** What `setColor` pushes (index.js:348-358). */
  function StyleEvent(colour: string): Event
  {
    Event("style", None, Some(map["stroke" := Str(colour)]), None, None)
  }

  /** A move of shape `target` by `dx` along x. */
  function MoveEvent(target: int, dx: int): Event
  {
    Event("move", None, Some(map["x" := Num(dx)]), None, Some(Link(Some(target))))
  }

  /** A rectangle of width `w`. */
  function RectEvent(id: int, w: int, path: Option<Link>): Event
  {
    Event("rect", Some(id), Some(map["width" := Num(w)]), None, path)
  }

  function PathRec(id: int, d: string): Rec
  {
    Rec("path", Some(id), Some(map["d" := Str(d)]), None, None, false)
  }

  function StyleRec(colour: string, canon: Canon): Rec
  {
    Rec("style", None, Some(map["stroke" := Str(canon(Str(colour)))]), None, None, false)
  }

  function DeleteRec(target: int): Rec
  {
    Rec("delete", None, Some(map[]), None, Some(target), false)
  }

  function MoveRec(target: int, dx: int): Rec
  {
    Rec("move", None, Some(map["x" := Num(dx)]), None, Some(target), false)
  }

  function PathDoc(d: string): Doc
  {
    Doc(Some("path"), Some(map["d" := Str(d)]), None)
  }

  function StyleDoc(colour: string, canon: Canon): Doc
  {
    Doc(Some("style"), Some(map["stroke" := Str(canon(Str(colour)))]), None)
  }

  lemma PathRecord(id: int, d: string, canon: Canon)
    ensures CreateEvent(PathEvent(id, d), canon) == PathRec(id, d)
  {
    var m := map["d" := Str(d)];
    assert SetRgb(m, "stroke", canon) == m;
    assert SetRgb(m, "fill", canon) == m;
  }

  /** A style record carries the canonical form of its colour. */
  lemma StyleRecord(colour: string, canon: Canon)
    requires colour != ""
    ensures CreateEvent(StyleEvent(colour), canon) == StyleRec(colour, canon)
  {
    var m := map["stroke" := Str(colour)];
    assert Truthy(Get(m, "stroke"));
    assert SetRgb(m, "stroke", canon) == map["stroke" := Str(canon(Str(colour)))];
  }

  lemma MoveRecord(target: int, dx: int, canon: Canon)
    ensures CreateEvent(MoveEvent(target, dx), canon) == MoveRec(target, dx)
  {
    var m := map["x" := Num(dx)];
    assert SetRgb(m, "stroke", canon) == m;
    assert SetRgb(m, "fill", canon) == m;
  }

  lemma RectRecord(id: int, w: int, path: Option<Link>, canon: Canon)
    ensures CreateEvent(RectEvent(id, w, path), canon) ==
              Rec("rect", Some(id), Some(map["width" := Num(w)]), None,
                  if path.Some? then path.value.id else None, false)
  {
    var m := map["width" := Num(w)];
    assert SetRgb(m, "stroke", canon) == m;
    assert SetRgb(m, "fill", canon) == m;
  }

  /** Path descriptions as the pen writes them: a move then a line. */
  lemma LineDescriptions()
    ensures HasLineOrArc("M0,0 L10,10")
    ensures !HasLineOrArc("M0,0")
  {
    assert "M0,0 L10,10"[5] == 'L';
  }

  // ---------------------------------------------------------------------
  // Unfolding the passes on short logs

  /** A log in which no record links anywhere goes through the linking
      pass unchanged. */
  lemma {:induction false} NoLinksIdentity(rs: seq<Rec>, n: nat)
    requires n <= |rs|
    requires forall k :: 0 <= k < n ==> !LinksOut(rs[k])
    ensures LinkPrefix(rs, n) == rs
  {
    if n > 0 {
      NoLinksIdentity(rs, n - 1);
    }
  }

  lemma ReduceSnoc(rs: seq<Rec>, x: Rec)
    requires AllCheckable(rs) && Checkable(x)
    ensures AllCheckable(rs + [x])
    ensures Reduce(rs + [x]) == ReduceStep(Reduce(rs), x)
  {
    var rx := rs + [x];
    assert rx[..|rx| - 1] == rs;
    ReduceUnfold(rx);
  }

  lemma Reduce1(a: Rec)
    requires Checkable(a)
    ensures AllCheckable([a])
    ensures Reduce([a]) == ReduceStep(Acc([], ""), a)
  {
    ReduceSnoc([], a);
    assert [] + [a] == [a];
  }

  lemma Reduce2(a: Rec, b: Rec)
    requires Checkable(a) && Checkable(b)
    ensures AllCheckable([a, b])
    ensures Reduce([a, b]) == ReduceStep(ReduceStep(Acc([], ""), a), b)
  {
    Reduce1(a);
    ReduceSnoc([a], b);
    assert [a] + [b] == [a, b];
  }

  lemma Reduce3(a: Rec, b: Rec, c: Rec)
    requires Checkable(a) && Checkable(b) && Checkable(c)
    ensures AllCheckable([a, b, c])
    ensures Reduce([a, b, c]) == ReduceStep(ReduceStep(ReduceStep(Acc([], ""), a), b), c)
  {
    Reduce2(a, b);
    ReduceSnoc([a, b], c);
    assert [a, b] + [c] == [a, b, c];
  }

  lemma Reduce4(a: Rec, b: Rec, c: Rec, d: Rec)
    requires Checkable(a) && Checkable(b) && Checkable(c) && Checkable(d)
    ensures AllCheckable([a, b, c, d])
    ensures Reduce([a, b, c, d]) == ReduceStep(ReduceStep(ReduceStep(ReduceStep(Acc([], ""), a), b), c), d)
  {
    Reduce3(a, b, c);
    ReduceSnoc([a, b, c], d);
    assert [a, b, c] + [d] == [a, b, c, d];
  }

  // ---------------------------------------------------------------------
  // Deletion and validity

  /** A shape followed by its deletion leaves an empty document. */
  lemma DeletionCascade(id: int, d: string, canon: Canon)
    requires id != 0
    ensures NormalizeDefined([PathEvent(id, d), DeleteEvent(id)], canon)
    ensures Normalize([PathEvent(id, d), DeleteEvent(id)], canon) == []
  {
    var r0, r1 := PathRec(id, d), DeleteRec(id);
    var rs := [r0, r1];
    assert Canonical([PathEvent(id, d), DeleteEvent(id)], canon) == rs by {
      PathRecord(id, d, canon);
    }
    assert LinkPrefix(rs, 1) == ProcessLink(rs, 0) == rs;
    assert Target(rs, 1) == Some(0);
    assert Xtend(r0.args, r1.args) == r0.args.value;
    var l2 := [r0.(deleted := true), r1.(deleted := true)];
    assert Linked(rs) == ProcessLink(rs, 1) == l2;
    Reduce2(l2[0], l2[1]);
  }

  /** Text whose args have no truthy `value` is dropped, even alone in
      the log, whatever its id, layout and other args. */
  lemma TextWithoutValueDropped(id: Option<int>, args: Args, layout: Option<Args>, canon: Canon)
    requires !("value" in args && Truthy(args["value"]))
    ensures NormalizeDefined([Event("text", id, Some(args), layout, None)], canon)
    ensures Normalize([Event("text", id, Some(args), layout, None)], canon) == []
  {
    var rs := Canonical([Event("text", id, Some(args), layout, None)], canon);
    var r := rs[0];
    assert r == CreateEvent(Event("text", id, Some(args), layout, None), canon);
    assert "value" in r.args.value ==> r.args.value["value"] == args["value"];
    NoLinksIdentity(rs, 1);
    Reduce1(r);
  }

  /** A path without a line or arc command is dropped. */
  lemma PathWithoutLineDropped(id: int, d: string, canon: Canon)
    requires !HasLineOrArc(d)
    ensures NormalizeDefined([PathEvent(id, d)], canon)
    ensures Normalize([PathEvent(id, d)], canon) == []
  {
    var rs := [PathRec(id, d)];
    assert Canonical([PathEvent(id, d)], canon) == rs by {
      PathRecord(id, d, canon);
    }
    NoLinksIdentity(rs, 1);
    Reduce1(rs[0]);
  }

  /** A path with a line or arc command is kept, as a `{type, args}`
      object. */
  lemma PathWithLineKept(id: int, d: string, canon: Canon)
    requires HasLineOrArc(d)
    ensures NormalizeDefined([PathEvent(id, d)], canon)
    ensures Normalize([PathEvent(id, d)], canon) == [PathDoc(d)]
  {
    var rs := [PathRec(id, d)];
    assert Canonical([PathEvent(id, d)], canon) == rs by {
      PathRecord(id, d, canon);
    }
    NoLinksIdentity(rs, 1);
    Reduce1(rs[0]);
  }

  // ---------------------------------------------------------------------
  // Style collapse

  /** A line recoloured twice: the line is kept and only the second colour
      survives, canonicalised. */
  lemma LineThenTwoColours(id: int, d: string, c1: string, c2: string, canon: Canon)
    requires HasLineOrArc(d) && c1 != "" && c2 != ""
    ensures NormalizeDefined([PathEvent(id, d), StyleEvent(c1), StyleEvent(c2)], canon)
    ensures Normalize([PathEvent(id, d), StyleEvent(c1), StyleEvent(c2)], canon) ==
              [PathDoc(d), StyleDoc(c2, canon)]
  {
    TwoColoursRecords(id, d, c1, c2, canon);
    TwoColoursLinks(id, d, c1, c2, canon);
    TwoColoursReduce(id, d, c1, c2, canon);
  }

  lemma TwoColoursRecords(id: int, d: string, c1: string, c2: string, canon: Canon)
    requires c1 != "" && c2 != ""
    ensures Canonical([PathEvent(id, d), StyleEvent(c1), StyleEvent(c2)], canon) ==
              [PathRec(id, d), StyleRec(c1, canon), StyleRec(c2, canon)]
  {
    PathRecord(id, d, canon);
    StyleRecord(c1, canon);
    StyleRecord(c2, canon);
  }

  lemma TwoColoursLinks(id: int, d: string, c1: string, c2: string, canon: Canon)
    ensures Linked([PathRec(id, d), StyleRec(c1, canon), StyleRec(c2, canon)]) ==
              [PathRec(id, d), StyleRec(c1, canon), StyleRec(c2, canon)]
  {
    NoLinksIdentity([PathRec(id, d), StyleRec(c1, canon), StyleRec(c2, canon)], 3);
  }

  lemma TwoColoursReduce(id: int, d: string, c1: string, c2: string, canon: Canon)
    requires HasLineOrArc(d)
    ensures AllCheckable([PathRec(id, d), StyleRec(c1, canon), StyleRec(c2, canon)])
    ensures Reduce([PathRec(id, d), StyleRec(c1, canon), StyleRec(c2, canon)]).result ==
              [PathDoc(d), StyleDoc(c2, canon)]
  {
    var r0, r1, r2 := PathRec(id, d), StyleRec(c1, canon), StyleRec(c2, canon);
    RecordsValid(id, d, c1, c2, canon);
    Reduce3(r0, r1, r2);
    var a1 := ReduceStep(Acc([], ""), r0);
    assert a1 == Acc([PathDoc(d)], "path");
    var a2 := ReduceStep(a1, r1);
    assert a2 == Acc([PathDoc(d), StyleDoc(c1, canon)], "style");
    assert ReduceStep(a2, r2) == Acc([PathDoc(d), StyleDoc(c2, canon)], "style");
  }

  /** The path and colour records of these logs are all accepted, and the
      empty style record is not. */
  lemma RecordsValid(id: int, d: string, c1: string, c2: string, canon: Canon)
    requires HasLineOrArc(d)
    ensures Checkable(PathRec(id, d)) && ValidEvent(PathRec(id, d))
    ensures Checkable(StyleRec(c1, canon)) && ValidEvent(StyleRec(c1, canon))
    ensures Checkable(StyleRec(c2, canon)) && ValidEvent(StyleRec(c2, canon))
    ensures Checkable(EmptyStyleRec()) && !ValidEvent(EmptyStyleRec())
  {
    assert "stroke" in StyleRec(c1, canon).args.value;
    assert "stroke" in StyleRec(c2, canon).args.value;
  }

  /** The pop for a style after an accepted style happens before the
      validity check, and `lastType` stays "style" when the record is
      rejected: an empty style between two colours pops the first colour,
      and the next colour then pops the line drawn before them. */
  lemma StylePopBeforeValidity(id: int, d: string, c1: string, c2: string, canon: Canon)
    requires HasLineOrArc(d) && c1 != "" && c2 != ""
    ensures NormalizeDefined([PathEvent(id, d), StyleEvent(c1),
                              Event("style", None, Some(map[]), None, None), StyleEvent(c2)], canon)
    ensures Normalize([PathEvent(id, d), StyleEvent(c1),
                       Event("style", None, Some(map[]), None, None), StyleEvent(c2)], canon) ==
              [StyleDoc(c2, canon)]
  {
    StylePopRecords(id, d, c1, c2, canon);
    StylePopLinks(id, d, c1, c2, canon);
    StylePopReduce(id, d, c1, c2, canon);
  }

  function EmptyStyleRec(): Rec
  {
    Rec("style", None, Some(map[]), None, None, false)
  }

  lemma StylePopRecords(id: int, d: string, c1: string, c2: string, canon: Canon)
    requires c1 != "" && c2 != ""
    ensures Canonical([PathEvent(id, d), StyleEvent(c1),
                       Event("style", None, Some(map[]), None, None), StyleEvent(c2)], canon) ==
              [PathRec(id, d), StyleRec(c1, canon), EmptyStyleRec(), StyleRec(c2, canon)]
  {
    PathRecord(id, d, canon);
    StyleRecord(c1, canon);
    StyleRecord(c2, canon);
  }

  lemma StylePopLinks(id: int, d: string, c1: string, c2: string, canon: Canon)
    ensures Linked([PathRec(id, d), StyleRec(c1, canon), EmptyStyleRec(), StyleRec(c2, canon)]) ==
              [PathRec(id, d), StyleRec(c1, canon), EmptyStyleRec(), StyleRec(c2, canon)]
  {
    NoLinksIdentity([PathRec(id, d), StyleRec(c1, canon), EmptyStyleRec(), StyleRec(c2, canon)], 4);
  }

  lemma StylePopReduce(id: int, d: string, c1: string, c2: string, canon: Canon)
    requires HasLineOrArc(d)
    ensures AllCheckable([PathRec(id, d), StyleRec(c1, canon), EmptyStyleRec(), StyleRec(c2, canon)])
    ensures Reduce([PathRec(id, d), StyleRec(c1, canon), EmptyStyleRec(), StyleRec(c2, canon)]).result ==
              [StyleDoc(c2, canon)]
  {
    var r0, r1, r2, r3 := PathRec(id, d), StyleRec(c1, canon), EmptyStyleRec(), StyleRec(c2, canon);
    RecordsValid(id, d, c1, c2, canon);
    Reduce4(r0, r1, r2, r3);
    var a1 := ReduceStep(Acc([], ""), r0);
    assert a1 == Acc([PathDoc(d)], "path");
    var a2 := ReduceStep(a1, r1);
    assert a2 == Acc([PathDoc(d), StyleDoc(c1, canon)], "style");
    var a3 := ReduceStep(a2, r2);
    assert a3 == Acc([PathDoc(d)], "style");
    assert ReduceStep(a3, r3) == Acc([StyleDoc(c2, canon)], "style");
  }

  // ---------------------------------------------------------------------
  // Quirks of the linking pass

  /** The `deleted` flag is assigned, not accumulated: a move of a deleted
      line brings it back, carrying the merged args. */
  lemma LaterAmendmentRevives(id: int, d: string, dx: int, canon: Canon)
    requires id != 0 && HasLineOrArc(d)
    ensures NormalizeDefined([PathEvent(id, d), DeleteEvent(id), MoveEvent(id, dx)], canon)
    ensures Normalize([PathEvent(id, d), DeleteEvent(id), MoveEvent(id, dx)], canon) ==
              [Doc(Some("path"), Some(map["d" := Str(d), "x" := Num(dx)]), None)]
  {
    RevivalRecords(id, d, dx, canon);
    RevivalLinks(id, d, dx);
    RevivalReduce(id, d, dx);
  }

  lemma RevivalRecords(id: int, d: string, dx: int, canon: Canon)
    ensures Canonical([PathEvent(id, d), DeleteEvent(id), MoveEvent(id, dx)], canon) ==
              [PathRec(id, d), DeleteRec(id), MoveRec(id, dx)]
  {
    PathRecord(id, d, canon);
    MoveRecord(id, dx, canon);
  }

  lemma RevivalReduce(id: int, d: string, dx: int)
    requires HasLineOrArc(d)
    ensures AllCheckable([RevivedRec(id, d, dx), DeleteRec(id).(deleted := true), MoveRec(id, dx).(deleted := true)])
    ensures Reduce([RevivedRec(id, d, dx), DeleteRec(id).(deleted := true), MoveRec(id, dx).(deleted := true)]).result ==
              [Doc(Some("path"), Some(map["d" := Str(d), "x" := Num(dx)]), None)]
  {
    Reduce3(RevivedRec(id, d, dx), DeleteRec(id).(deleted := true), MoveRec(id, dx).(deleted := true));
  }

  function RevivedRec(id: int, d: string, dx: int): Rec
  {
    Rec("path", Some(id), Some(map["d" := Str(d), "x" := Num(dx)]), None, None, false)
  }

  lemma RevivalLinks(id: int, d: string, dx: int)
    requires id != 0
    ensures Linked([PathRec(id, d), DeleteRec(id), MoveRec(id, dx)]) ==
              [RevivedRec(id, d, dx), DeleteRec(id).(deleted := true), MoveRec(id, dx).(deleted := true)]
  {
    var r0, r1, r2 := PathRec(id, d), DeleteRec(id), MoveRec(id, dx);
    var rs := [r0, r1, r2];
    assert LinkPrefix(rs, 1) == ProcessLink(rs, 0) == rs;
    assert Target(rs, 1) == Some(0);
    assert Xtend(r0.args, r1.args) == r0.args.value;
    var l2 := [r0.(deleted := true), r1.(deleted := true), r2];
    assert LinkPrefix(rs, 2) == ProcessLink(rs, 1) == l2;
    assert Target(l2, 2) == Some(0);
    assert Xtend(l2[0].args, r2.args) == RevivedRec(id, d, dx).args.value;
    assert LinkPrefix(rs, 3) == ProcessLink(l2, 2);
  }

  /** Two shapes sharing an id: the deletion lands on the first. */
  lemma DuplicateIdFirstWins(id: int, d1: string, d2: string, canon: Canon)
    requires id != 0 && HasLineOrArc(d2)
    ensures NormalizeDefined([PathEvent(id, d1), PathEvent(id, d2), DeleteEvent(id)], canon)
    ensures Normalize([PathEvent(id, d1), PathEvent(id, d2), DeleteEvent(id)], canon) == [PathDoc(d2)]
  {
    var rs := [PathRec(id, d1), PathRec(id, d2), DeleteRec(id)];
    assert Canonical([PathEvent(id, d1), PathEvent(id, d2), DeleteEvent(id)], canon) == rs by {
      PathRecord(id, d1, canon);
      PathRecord(id, d2, canon);
    }
    DuplicateLinks(id, d1, d2);
    var l3 := [PathRec(id, d1).(deleted := true), PathRec(id, d2), DeleteRec(id).(deleted := true)];
    Reduce3(l3[0], l3[1], l3[2]);
    assert ReduceStep(Acc([], ""), l3[0]) == Acc([], "");
    assert ReduceStep(Acc([], ""), l3[1]) == Acc([PathDoc(d2)], "path");
  }

  lemma DuplicateLinks(id: int, d1: string, d2: string)
    requires id != 0
    ensures Linked([PathRec(id, d1), PathRec(id, d2), DeleteRec(id)]) ==
              [PathRec(id, d1).(deleted := true), PathRec(id, d2), DeleteRec(id).(deleted := true)]
  {
    var r0, r1, r2 := PathRec(id, d1), PathRec(id, d2), DeleteRec(id);
    var rs := [r0, r1, r2];
    NoLinksIdentity(rs, 2);
    assert FirstWithId(rs, id) == Some(0);
    assert Target(rs, 2) == Some(0);
    assert Xtend(r0.args, r2.args) == r0.args.value;
    assert LinkPrefix(rs, 3) == ProcessLink(rs, 2);
  }

  /** A link to id 0 is not followed (`if (event.pathId)` is false for 0):
      the shape stays, and the delete, having no content, is dropped. */
  lemma LinkToIdZeroIgnored(w: int, canon: Canon)
    ensures NormalizeDefined([RectEvent(0, w, None), DeleteEvent(0)], canon)
    ensures Normalize([RectEvent(0, w, None), DeleteEvent(0)], canon) ==
              [Doc(Some("rect"), Some(map["width" := Num(w)]), None)]
  {
    var r0 := Rec("rect", Some(0), Some(map["width" := Num(w)]), None, None, false);
    var r1 := DeleteRec(0);
    var rs := [r0, r1];
    assert Canonical([RectEvent(0, w, None), DeleteEvent(0)], canon) == rs by {
      RectRecord(0, w, None, canon);
    }
    NoLinksIdentity(rs, 2);
    Reduce2(r0, r1);
  }

  /** A shape that links to itself is not suppressed by the link. */
  lemma SelfLinkKept(id: int, w: int, canon: Canon)
    requires id != 0
    ensures NormalizeDefined([RectEvent(id, w, Some(Link(Some(id))))], canon)
    ensures Normalize([RectEvent(id, w, Some(Link(Some(id))))], canon) ==
              [Doc(Some("rect"), Some(map["width" := Num(w)]), None)]
  {
    var r0 := Rec("rect", Some(id), Some(map["width" := Num(w)]), None, Some(id), false);
    var rs := [r0];
    assert Canonical([RectEvent(id, w, Some(Link(Some(id))))], canon) == rs by {
      RectRecord(id, w, Some(Link(Some(id))), canon);
    }
    assert Target(rs, 0) == Some(0);
    assert Xtend(r0.args, r0.args) == r0.args.value;
    assert Linked(rs) == LinkPrefix(rs, 1) == ProcessLink(LinkPrefix(rs, 0), 0) == ProcessLink(rs, 0) == rs;
    Reduce1(r0);
  }

  // ---------------------------------------------------------------------
  // Undo and redo

  /** Undo then redo: popping the last event and pushing it back leaves a
      log that serialises to the same document as before. */
  method UndoThenRedo(s: EventStream, canon: Canon) returns (before: seq<Doc>, after: seq<Doc>)
    requires NormalizeDefined(s.events, canon)
    modifies s
    ensures s.events == old(s.events)
    ensures before == after
  {
    ghost var log := s.events;
    before := s.ToJSON(canon);
    var event := s.Pop();
    if event.Some? {
      var _ := s.Push(event.value);
      assert s.events == log;
    }
    after := s.ToJSON(canon);
  }
}
