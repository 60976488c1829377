/** What the final reduction of `toJSON` emits: only records `validEvent`
    accepts, a run of style changes reduced to its last member, and, when
    every style record is valid, exactly the accepted records in their
    original order with each style dropped that the next accepted record
    supersedes. */
module ReduceProperties {
  import opened Values
  import opened EventStreams

  lemma ReduceUnfold(rs: seq<Rec>)
    requires AllCheckable(rs) && rs != []
    ensures AllCheckable(rs[..|rs| - 1])
    ensures Reduce(rs) == ReduceStep(Reduce(rs[..|rs| - 1]), rs[|rs| - 1])
  {
    assert forall k :: 0 <= k < |rs| - 1 ==> rs[..|rs| - 1][k] == rs[k];
  }

  /** One call of the `reduce` callback. The pop for a style after an
      accepted style happens whether or not the new record is accepted; a
      rejected record that causes no pop changes nothing, not even
      `lastType`; an accepted one is appended after the (possibly popped)
      output. */
  lemma StepEffect(acc: Acc, r: Rec)
    requires Checkable(r)
    ensures !ValidEvent(r) && r.kind == "style" && acc.lastType == "style" ==>
              ReduceStep(acc, r) == Acc(PopLast(acc.result), acc.lastType)
    ensures !ValidEvent(r) && !(r.kind == "style" && acc.lastType == "style") ==> ReduceStep(acc, r) == acc
    ensures ValidEvent(r) && r.kind == "style" && acc.lastType == "style" ==>
              ReduceStep(acc, r) == Acc(PopLast(acc.result) + [CopyEvent(r)], "style")
    ensures ValidEvent(r) && !(r.kind == "style" && acc.lastType == "style") ==>
              ReduceStep(acc, r) == Acc(acc.result + [CopyEvent(r)], r.kind)
  {
  }

  /** The copy keeps exactly the type, args and layout: two records have
      the same copy iff they agree on those three fields, whatever their
      ids, links and `deleted` flags. */
  lemma CopyEventKeepsContent(r1: Rec, r2: Rec)
    ensures CopyEvent(r1) == CopyEvent(r2) <==>
              r1.kind == r2.kind && r1.args == r2.args && r1.layout == r2.layout
  {
  }

  /** `doc` is the `{type, args, layout}` copy of a record of `rs` that
      `validEvent` accepts. */
  predicate EmittedFrom(rs: seq<Rec>, doc: Doc)
    requires AllCheckable(rs)
  {
    exists k :: 0 <= k < |rs| && ValidEvent(rs[k]) && doc == CopyEvent(rs[k])
  }

  /** Every element of the output is the copy of a record `validEvent`
      accepts: nothing deleted, no text without a value, no path without a
      line or arc, no other record without content. */
  lemma {:induction false} OnlyValidEmitted(rs: seq<Rec>)
    requires AllCheckable(rs)
    ensures forall m :: 0 <= m < |Reduce(rs).result| ==> EmittedFrom(rs, Reduce(rs).result[m])
  {
    if rs != [] {
      var init := rs[..|rs| - 1];
      ReduceUnfold(rs);
      OnlyValidEmitted(init);
      var prev := Reduce(init);
      var x := rs[|rs| - 1];
      var kept := if x.kind == "style" && prev.lastType == "style" then PopLast(prev.result) else prev.result;
      var out := Reduce(rs).result;
      assert out == if ValidEvent(x) then kept + [CopyEvent(x)] else kept;
      forall m | 0 <= m < |out|
        ensures EmittedFrom(rs, out[m])
      {
        if m < |kept| {
          assert out[m] == prev.result[m];
          assert EmittedFrom(init, prev.result[m]);
          var k :| 0 <= k < |init| && ValidEvent(init[k]) && prev.result[m] == CopyEvent(init[k]);
          assert init[k] == rs[k];
        } else {
          assert out[m] == CopyEvent(rs[|rs| - 1]);
        }
      }
    }
  }

  /** A run of valid style records contributes only its last member. Like
      every accepted style, that member also replaces a style accepted just
      before the run. */
  lemma {:induction false} StyleRunCollapses(p: seq<Rec>, s: seq<Rec>)
    requires AllCheckable(p) && s != []
    requires forall i :: 0 <= i < |s| ==> s[i].kind == "style" && Checkable(s[i]) && ValidEvent(s[i])
    ensures AllCheckable(p + s)
    ensures Reduce(p + s).lastType == "style"
    ensures Reduce(p + s).result ==
              (if Reduce(p).lastType == "style" then PopLast(Reduce(p).result) else Reduce(p).result)
              + [CopyEvent(s[|s| - 1])]
  {
    var ps := p + s;
    assert AllCheckable(ps) by {
      forall i | 0 <= i < |ps| ensures Checkable(ps[i]) {
        if i >= |p| { assert ps[i] == s[i - |p|]; }
      }
    }
    ReduceUnfold(ps);
    var s' := s[..|s| - 1];
    assert ps[..|ps| - 1] == p + s';
    if s' == [] {
      assert p + s' == p;
    } else {
      StyleRunCollapses(p, s');
      var r := Reduce(p + s');
      var base := if Reduce(p).lastType == "style" then PopLast(Reduce(p).result) else Reduce(p).result;
      assert r.result == base + [CopyEvent(s'[|s'| - 1])];
      assert PopLast(r.result) == base;
    }
  }

  // ---------------------------------------------------------------------
  // A reference definition of the collapse

  predicate IsStyle(r: Rec)
  {
    r.kind == "style"
  }

  /** The records `validEvent` accepts, in order. */
  function AcceptedRecords(rs: seq<Rec>): (v: seq<Rec>)
    requires AllCheckable(rs)
  {
    if rs == [] then []
    else
      var init := rs[..|rs| - 1];
      assert forall k :: 0 <= k < |init| ==> init[k] == rs[k];
      AcceptedRecords(init) + if ValidEvent(rs[|rs| - 1]) then [rs[|rs| - 1]] else []
  }

  /** Record `i` of the accepted records survives the collapse unless it
      is a style and the next accepted record is a style too. */
  predicate Kept(s: seq<Rec>, i: nat)
    requires i < |s|
  {
    !(i + 1 < |s| && IsStyle(s[i]) && IsStyle(s[i + 1]))
  }

  /** `out` picks, in order, copies of elements of `acc`: element `m` of
      `out` is the copy of `acc[ix[m]]`, and the indices strictly increase. */
  predicate OrderedSelection(out: seq<Doc>, acc: seq<Rec>, ix: seq<nat>)
  {
    |ix| == |out| &&
    (forall m :: 0 <= m < |ix| ==> ix[m] < |acc| && out[m] == CopyEvent(acc[ix[m]])) &&
    (forall m, n :: 0 <= m < n < |ix| ==> ix[m] < ix[n])
  }

  /** `lastType` changes only when a record is accepted, so it always holds
      the type of the last accepted record, and stays undefined until one
      is accepted. */
  lemma {:induction false} LastTypeAccepted(rs: seq<Rec>)
    requires AllCheckable(rs)
    ensures Reduce(rs).lastType ==
              if AcceptedRecords(rs) == [] then "" else AcceptedRecords(rs)[|AcceptedRecords(rs)| - 1].kind
  {
    if rs != [] {
      var init := rs[..|rs| - 1];
      ReduceUnfold(rs);
      assert forall k :: 0 <= k < |init| ==> init[k] == rs[k];
      LastTypeAccepted(init);
      if ValidEvent(rs[|rs| - 1]) {
        assert AcceptedRecords(rs) == AcceptedRecords(init) + [rs[|rs| - 1]];
      } else {
        assert AcceptedRecords(rs) == AcceptedRecords(init);
      }
    }
  }

  /** Dropping the last element of a selection leaves a selection. */
  lemma SelectionPop(out: seq<Doc>, acc: seq<Rec>, ix: seq<nat>)
    requires OrderedSelection(out, acc, ix)
    ensures OrderedSelection(PopLast(out), acc, PopLast(ix))
  {
  }

  /** A selection from `acc` is one from any extension of `acc`, and it can
      take the new record next. */
  lemma SelectionExtend(out: seq<Doc>, acc: seq<Rec>, ix: seq<nat>, x: Rec)
    requires OrderedSelection(out, acc, ix)
    ensures OrderedSelection(out, acc + [x], ix)
    ensures OrderedSelection(out + [CopyEvent(x)], acc + [x], ix + [|acc|])
  {
    var acc', ix' := acc + [x], ix + [|acc|];
    assert forall m :: 0 <= m < |ix| ==> acc'[ix[m]] == acc[ix[m]];
    assert forall m :: 0 <= m < |ix| ==> ix'[m] == ix[m];
  }

  /** Whatever the styles, the output keeps the accepted records' relative
      order: it is the copies of some of the accepted records, taken at
      strictly increasing positions. A rejected style may still pop an
      accepted one, so the output can be shorter than the collapse. */
  lemma {:induction false} ReduceSelectsAccepted(rs: seq<Rec>)
    requires AllCheckable(rs)
    ensures |Reduce(rs).result| <= |AcceptedRecords(rs)|
    ensures exists ix :: OrderedSelection(Reduce(rs).result, AcceptedRecords(rs), ix)
  {
    if rs == [] {
      assert OrderedSelection([], [], []);
    } else {
      var init := rs[..|rs| - 1];
      var x := rs[|rs| - 1];
      ReduceUnfold(rs);
      assert forall k :: 0 <= k < |init| ==> init[k] == rs[k];
      ReduceSelectsAccepted(init);
      var prev := Reduce(init);
      var acc := AcceptedRecords(init);
      var ix :| OrderedSelection(prev.result, acc, ix);
      var pop := x.kind == "style" && prev.lastType == "style";
      var kept := if pop then PopLast(prev.result) else prev.result;
      var kix := if pop then PopLast(ix) else ix;
      assert OrderedSelection(kept, acc, kix) by {
        if pop { SelectionPop(prev.result, acc, ix); }
      }
      if ValidEvent(x) {
        assert AcceptedRecords(rs) == acc + [x];
        assert Reduce(rs).result == kept + [CopyEvent(x)];
        SelectionExtend(kept, acc, kix, x);
      } else {
        assert AcceptedRecords(rs) == acc;
        assert Reduce(rs).result == kept;
      }
    }
  }

  /** The surviving records among the first `n`, in order. */
  function KeptPrefix(s: seq<Rec>, n: nat): seq<Rec>
    requires n <= |s|
  {
    if n == 0 then [] else KeptPrefix(s, n - 1) + if Kept(s, n - 1) then [s[n - 1]] else []
  }

  /** The accepted records with every superseded style left out. */
  function CollapseStyles(s: seq<Rec>): seq<Rec>
  {
    KeptPrefix(s, |s|)
  }

  function Copies(s: seq<Rec>): (d: seq<Doc>)
    ensures |d| == |s|
  {
    seq(|s|, i requires 0 <= i < |s| => CopyEvent(s[i]))
  }

  /** Appending a record changes whether only the previous last record
      survives, so the surviving records before it stay as they were. */
  lemma {:induction false} KeptPrefixSnoc(s: seq<Rec>, x: Rec, n: nat)
    requires n < |s|
    ensures KeptPrefix(s + [x], n) == KeptPrefix(s, n)
  {
    if n > 0 {
      KeptPrefixSnoc(s, x, n - 1);
      assert (s + [x])[n - 1] == s[n - 1] && (s + [x])[n] == s[n];
    }
  }

  /** Appending a record to the collapse's input: a style after a style
      replaces it, anything else is appended. */
  lemma CollapseSnoc(s: seq<Rec>, x: Rec)
    ensures CollapseStyles(s + [x]) ==
              if s != [] && IsStyle(s[|s| - 1]) && IsStyle(x)
              then PopLast(CollapseStyles(s)) + [x]
              else CollapseStyles(s) + [x]
  {
    var sx := s + [x];
    assert sx[|s|] == x;
    if s != [] {
      var n := |s| - 1;
      KeptPrefixSnoc(s, x, n);
      assert sx[n] == s[n];
      assert CollapseStyles(s) == KeptPrefix(s, n) + [s[n]];
      assert KeptPrefix(sx, |s|) == KeptPrefix(s, n) + if Kept(sx, n) then [s[n]] else [];
      assert CollapseStyles(sx) == KeptPrefix(sx, |s|) + [x];
      if IsStyle(s[n]) && IsStyle(x) {
        assert PopLast(CollapseStyles(s)) == KeptPrefix(s, n);
      } else {
        assert CollapseStyles(sx) == KeptPrefix(s, n) + [s[n]] + [x];
      }
    } else {
      assert CollapseStyles(sx) == KeptPrefix(sx, 0) + [x];
    }
  }

  /** One accepted record extends the collapse of the records accepted
      before it exactly as one reduction step extends the output. */
  lemma AcceptStep(acc: seq<Rec>, prev: Acc, x: Rec)
    requires prev.result == Copies(CollapseStyles(acc))
    requires prev.lastType == if acc == [] then "" else acc[|acc| - 1].kind
    requires Checkable(x) && ValidEvent(x)
    ensures ReduceStep(prev, x) == Acc(Copies(CollapseStyles(acc + [x])), x.kind)
  {
    CollapseSnoc(acc, x);
    var c := CollapseStyles(acc);
    if acc != [] && IsStyle(acc[|acc| - 1]) && IsStyle(x) {
      assert Copies(PopLast(c) + [x]) == PopLast(Copies(c)) + [CopyEvent(x)];
    } else {
      assert Copies(c + [x]) == Copies(c) + [CopyEvent(x)];
    }
  }

  /** When every style record is valid, the reduction emits exactly the
      copies of the accepted records, in their original order, with each
      style dropped whose next accepted record is also a style; `lastType`
      is the type of the last accepted record. */
  lemma {:induction false} ReduceIsCollapse(rs: seq<Rec>)
    requires AllCheckable(rs)
    requires forall i :: 0 <= i < |rs| && IsStyle(rs[i]) ==> ValidEvent(rs[i])
    ensures Reduce(rs).result == Copies(CollapseStyles(AcceptedRecords(rs)))
    ensures Reduce(rs).lastType ==
              if AcceptedRecords(rs) == [] then "" else AcceptedRecords(rs)[|AcceptedRecords(rs)| - 1].kind
  {
    if rs != [] {
      var init := rs[..|rs| - 1];
      var x := rs[|rs| - 1];
      ReduceUnfold(rs);
      assert forall k :: 0 <= k < |init| ==> init[k] == rs[k];
      ReduceIsCollapse(init);
      if ValidEvent(x) {
        assert AcceptedRecords(rs) == AcceptedRecords(init) + [x];
        AcceptStep(AcceptedRecords(init), Reduce(init), x);
      } else {
        assert AcceptedRecords(rs) == AcceptedRecords(init);
      }
    }
  }
}
