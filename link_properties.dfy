/** What the linking pass of `toJSON` (`processPath` over every record, in
    order) does to the records: which record an amendment lands on, what the
    `deleted` flags end up as, how args are merged, and why `validEvent`
    never throws on a log whose events have the fields it reads. */
module LinkProperties {
  import opened Values
  import opened EventStreams

  /** The first record with a given id is determined by the ids alone. */
  lemma FirstWithIdByIds(rs: seq<Rec>, qs: seq<Rec>, id: int)
    requires |rs| == |qs|
    requires forall j :: 0 <= j < |rs| ==> rs[j].id == qs[j].id
    ensures FirstWithId(rs, id) == FirstWithId(qs, id)
  {
    var a, b := FirstWithId(rs, id), FirstWithId(qs, id);
    if a.Some? && b.Some? {
      assert !(a.value < b.value) && !(b.value < a.value);
    }
  }

  /** The pass changes only args and `deleted` flags: every record keeps
      its type, id, layout and link. */
  lemma {:induction false} LinkPrefixKeepsShape(rs: seq<Rec>, n: nat)
    requires n <= |rs|
    ensures forall j :: 0 <= j < |rs| ==>
              LinkPrefix(rs, n)[j].kind == rs[j].kind && LinkPrefix(rs, n)[j].id == rs[j].id &&
              LinkPrefix(rs, n)[j].layout == rs[j].layout && LinkPrefix(rs, n)[j].pathId == rs[j].pathId
  {
    if n > 0 {
      LinkPrefixKeepsShape(rs, n - 1);
    }
  }

  /** No step of the pass changes an id or a link, so a record resolves to
      the same target however many steps have run. */
  lemma TargetStable(rs: seq<Rec>, n: nat, k: nat)
    requires n <= |rs| && k < |rs|
    ensures Target(LinkPrefix(rs, n), k) == Target(rs, k)
  {
    var qs := LinkPrefix(rs, n);
    LinkPrefixKeepsShape(rs, n);
    if LinksOut(rs[k]) {
      FirstWithIdByIds(qs, rs, rs[k].pathId.value);
    }
  }

  /** One step whose link resolves: the target's args become the linker's
      merged over its own, its `deleted` flag says whether the linker is a
      `delete`, and a linker other than the target is otherwise kept,
      marked deleted. */
  lemma StepAmends(qs: seq<Rec>, i: nat)
    requires i < |qs| && Target(qs, i).Some?
    ensures ProcessLink(qs, i)[Target(qs, i).value].args == Some(Xtend(qs[Target(qs, i).value].args, qs[i].args))
    ensures ProcessLink(qs, i)[Target(qs, i).value].deleted == (qs[i].kind == "delete")
    ensures Target(qs, i).value != i ==> ProcessLink(qs, i)[i] == qs[i].(deleted := true)
  {
  }

  /** One step touches only the linker and its target, and the linker only
      in its `deleted` flag. */
  lemma StepTouches(qs: seq<Rec>, i: nat, x: nat)
    requires i < |qs| && x < |qs|
    requires Target(qs, i) != Some(x)
    ensures ProcessLink(qs, i)[x].args == qs[x].args
    ensures x != i || Target(qs, i).None? ==> ProcessLink(qs, i)[x] == qs[x]
  {
  }

  /** A record that no step in `[m, n)` targets keeps its args over those
      steps, and keeps everything when it is not itself a resolved linker
      among them. */
  lemma {:induction false} Untouched(rs: seq<Rec>, m: nat, n: nat, x: nat)
    requires m <= n <= |rs| && x < |rs|
    requires forall k :: m <= k < n ==> Target(rs, k) != Some(x)
    ensures LinkPrefix(rs, n)[x].args == LinkPrefix(rs, m)[x].args
    ensures !(m <= x < n && Target(rs, x).Some?) ==> LinkPrefix(rs, n)[x] == LinkPrefix(rs, m)[x]
    decreases n - m
  {
    if m < n {
      var k := n - 1;
      var before, here, after := LinkPrefix(rs, m)[x], LinkPrefix(rs, k)[x], LinkPrefix(rs, n)[x];
      assert here.args == before.args && (!(m <= x < k && Target(rs, x).Some?) ==> here == before) by {
        Untouched(rs, m, k, x);
      }
      assert after.args == here.args && (x != k || Target(rs, k).None? ==> after == here) by {
        UntouchedStep(rs, k, x);
        assert LinkPrefix(rs, k + 1) == LinkPrefix(rs, n);
      }
    }
  }

  lemma UntouchedStep(rs: seq<Rec>, k: nat, x: nat)
    requires k < |rs| && x < |rs|
    requires Target(rs, k) != Some(x)
    ensures LinkPrefix(rs, k + 1)[x].args == LinkPrefix(rs, k)[x].args
    ensures x != k || Target(rs, k).None? ==> LinkPrefix(rs, k + 1)[x] == LinkPrefix(rs, k)[x]
  {
    var qs := LinkPrefix(rs, k);
    TargetStable(rs, k, k);
    StepTouches(qs, k, x);
  }

  /** Each step either leaves a record's args alone or replaces them by a
      merge over them, so no key is ever lost. */
  lemma {:induction false} KeysOnlyGrow(rs: seq<Rec>, n: nat, x: nat)
    requires n <= |rs| && x < |rs|
    ensures OrEmpty(rs[x].args).Keys <= OrEmpty(LinkPrefix(rs, n)[x].args).Keys
  {
    if n > 0 {
      var q := LinkPrefix(rs, n - 1);
      assert OrEmpty(rs[x].args).Keys <= OrEmpty(q[x].args).Keys by { KeysOnlyGrow(rs, n - 1, x); }
      assert LinkPrefix(rs, n) == ProcessLink(q, n - 1);
    }
  }

  /** The step of a linker whose link resolves: the target's args become
      the merge of its args and the linker's (as both stand at that step),
      its `deleted` flag says whether the linker is a `delete`, and a
      linker other than the target is marked deleted. */
  lemma AmendStep(rs: seq<Rec>, j: nat)
    requires j < |rs| && Target(rs, j).Some?
    ensures LinkPrefix(rs, j + 1)[Target(rs, j).value].deleted == (rs[j].kind == "delete")
    ensures LinkPrefix(rs, j + 1)[Target(rs, j).value].args ==
              Some(Xtend(LinkPrefix(rs, j)[Target(rs, j).value].args, LinkPrefix(rs, j)[j].args))
    ensures Target(rs, j).value != j ==> LinkPrefix(rs, j + 1)[j].deleted
  {
    var q := LinkPrefix(rs, j);
    assert Target(q, j) == Target(rs, j) by { TargetStable(rs, j, j); }
    assert q[j].kind == rs[j].kind by { LinkPrefixKeepsShape(rs, j); }
    assert LinkPrefix(rs, j + 1) == ProcessLink(q, j);
  }

  /** The target's `deleted` flag is assigned, not accumulated: after the
      pass it says only whether the last record amending it (from its own
      position on) was a `delete`. An earlier delete is undone by a later
      amendment of another type. */
  lemma DeletedByLastLinker(rs: seq<Rec>, t: nat, j: nat)
    requires t <= j < |rs|
    requires Target(rs, j) == Some(t)
    requires forall k :: j < k < |rs| ==> Target(rs, k) != Some(t)
    ensures Linked(rs)[t].deleted <==> rs[j].kind == "delete"
  {
    AmendStep(rs, j);
    assert Linked(rs)[t] == LinkPrefix(rs, j + 1)[t] by { Untouched(rs, j + 1, |rs|, t); }
  }

  /** A record that links to itself is not suppressed by doing so: its
      `deleted` flag ends up saying whether it is a `delete`. */
  lemma SelfLinkKeptUnlessDelete(rs: seq<Rec>, i: nat)
    requires i < |rs|
    requires Target(rs, i) == Some(i)
    requires forall k :: i < k < |rs| ==> Target(rs, k) != Some(i)
    ensures Linked(rs)[i].deleted <==> rs[i].kind == "delete"
  {
    DeletedByLastLinker(rs, i, i);
  }

  /** A record whose link resolves to another record is suppressed, and so
      rejected by `validEvent`, unless a later record amends it in turn. */
  lemma LinkerSuppressed(rs: seq<Rec>, i: nat)
    requires i < |rs|
    requires Target(rs, i).Some? && Target(rs, i).value != i
    requires forall k :: i < k < |rs| ==> Target(rs, k) != Some(i)
    ensures Linked(rs)[i].deleted
    ensures Checkable(Linked(rs)[i]) && !ValidEvent(Linked(rs)[i])
  {
    AmendStep(rs, i);
    assert Linked(rs)[i] == LinkPrefix(rs, i + 1)[i] by { Untouched(rs, i + 1, |rs|, i); }
  }

  /** A record that links nowhere that resolves, and that nothing amends,
      leaves the pass exactly as `createEvent` built it, to be judged by
      `validEvent` alone. */
  lemma UnresolvedLinkerUntouched(rs: seq<Rec>, i: nat)
    requires i < |rs|
    requires Target(rs, i).None?
    requires forall k :: 0 <= k < |rs| ==> Target(rs, k) != Some(i)
    ensures Linked(rs)[i] == rs[i]
  {
    Untouched(rs, 0, |rs|, i);
  }

  /** When `j` is the last record amending `t`, and nothing amended `j`
      before its turn, the target ends up with an args object in which every
      key of `j`'s args has `j`'s value, and which still holds every key the
      target had. */
  lemma MergedFromLastLinker(rs: seq<Rec>, j: nat, t: nat)
    requires j < |rs| && Target(rs, j) == Some(t) && t != j
    requires forall k :: 0 <= k < j ==> Target(rs, k) != Some(j)
    requires forall k :: j < k < |rs| ==> Target(rs, k) != Some(t)
    ensures Linked(rs)[t].args.Some?
    ensures forall key :: key in OrEmpty(rs[j].args) ==>
              key in Linked(rs)[t].args.value && Linked(rs)[t].args.value[key] == OrEmpty(rs[j].args)[key]
    ensures OrEmpty(rs[t].args).Keys <= Linked(rs)[t].args.value.Keys
  {
    var q := LinkPrefix(rs, j);
    assert q[j] == rs[j] by { Untouched(rs, 0, j, j); }
    var merged := Xtend(q[t].args, rs[j].args);
    assert LinkPrefix(rs, j + 1)[t].args == Some(merged) by { AmendStep(rs, j); }
    assert Linked(rs)[t].args == Some(merged) by { Untouched(rs, j + 1, |rs|, t); }
    assert OrEmpty(rs[t].args).Keys <= OrEmpty(q[t].args).Keys by { KeysOnlyGrow(rs, j, t); }
  }

  // ---------------------------------------------------------------------
  // When validEvent can read every record

  /** A type and args with the fields `validEvent` reads: text carries
      args, a path carries args with a `d`, and any `d` is a string. Events
      and records are both judged by their type and args. */
  predicate Shaped(kind: string, args: Option<Args>)
  {
    (kind == "text" ==> args.Some?) &&
    (kind == "path" ==> args.Some? && "d" in args.value) &&
    (args.Some? && "d" in args.value ==> args.value["d"].Str?)
  }

  /** `createEvent` keeps the shape: it copies the type, and rewrites only
      `stroke` and `fill`, never `d`. */
  lemma CreateEventKeepsShape(e: Event, canon: Canon)
    requires Shaped(e.kind, e.args)
    ensures Shaped(CreateEvent(e, canon).kind, CreateEvent(e, canon).args)
  {
    var r := CreateEvent(e, canon);
    if e.args.Some? && "d" in e.args.value {
      assert r.args.value["d"] == e.args.value["d"];
    }
  }

  lemma {:induction false} ShapePreserved(rs: seq<Rec>, n: nat)
    requires n <= |rs|
    requires forall i :: 0 <= i < |rs| ==> Shaped(rs[i].kind, rs[i].args)
    ensures forall i :: 0 <= i < |rs| ==> Shaped(LinkPrefix(rs, n)[i].kind, LinkPrefix(rs, n)[i].args)
  {
    if n > 0 {
      ShapePreserved(rs, n - 1);
    }
  }

  /** A log whose text events carry args, whose path events carry a `d`,
      and in which every `d` any event carries is a string serialises
      without throwing, whatever links it holds. */
  lemma ShapedLogNormalizes(events: seq<Event>, canon: Canon)
    requires forall i :: 0 <= i < |events| ==> Shaped(events[i].kind, events[i].args)
    ensures NormalizeDefined(events, canon)
  {
    var rs := Canonical(events, canon);
    assert forall i :: 0 <= i < |rs| ==> Shaped(rs[i].kind, rs[i].args) by {
      forall i | 0 <= i < |rs| ensures Shaped(rs[i].kind, rs[i].args) {
        assert rs[i] == CreateEvent(events[i], canon);
        CreateEventKeepsShape(events[i], canon);
      }
    }
    ShapePreserved(rs, |rs|);
  }
}
