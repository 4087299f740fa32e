/** What a consumer of a MOJO stream sees: every frame reference replaced by what it stands for. */
module MojoReader {
  import opened Common
  import opened MojoModel

  datatype Row = Row(filename: Text, scope: Text, line: nat, lineEnd: nat, column: nat, columnEnd: nat)

  /** A line of a stack, if the reference can be looked up, or any other event that is not a definition. */
  datatype Item = Line(row: Option<Row>) | Mark(event: Event)

  /** The latest definitions. */
  datatype Tables = Tables(frames: map<nat, Event>, strings: map<nat, Text>)

  function LookUp(t: Tables, key: nat): Option<Row> {
    if key !in t.frames then None
    else
      var e := t.frames[key];
      if e.Frame? && e.filename in t.strings && e.scope in t.strings then
        Some(Row(t.strings[e.filename], t.strings[e.scope], e.line, e.lineEnd, e.column, e.columnEnd))
      else None
  }

  function Define(t: Tables, e: Event): Tables {
    match e
    case Frame(key, _, _, _, _, _, _) => t.(frames := t.frames[key := e])
    case StringDef(ref, text) => t.(strings := t.strings[ref := text])
    case _ => t
  }

  function Show(t: Tables, e: Event): seq<Item> {
    match e
    case Frame(_, _, _, _, _, _, _) => []
    case StringDef(_, _) => []
    case FrameRef(key) => [Line(LookUp(t, key))]
    case _ => [Mark(e)]
  }

  function Defined(es: seq<Event>): Tables {
    if es == [] then Tables(map[], map[]) else Define(Defined(es[..|es| - 1]), es[|es| - 1])
  }

  function Items(es: seq<Event>): seq<Item> {
    if es == [] then [] else Items(es[..|es| - 1]) + Show(Defined(es[..|es| - 1]), es[|es| - 1])
  }

  lemma {:induction false} OneMore(es: seq<Event>, e: Event)
    ensures Defined(es + [e]) == Define(Defined(es), e)
    ensures Items(es + [e]) == Items(es) + Show(Defined(es), e)
  {
    hide Define, Show;
    assert (es + [e])[..|es|] == es;
  }

  /** A frame is looked up in the latest frame event with its key. */
  lemma {:induction false} LatestFrame(es: seq<Event>, key: nat) returns (i: nat)
    requires key in Defined(es).frames
    ensures i < |es| && es[i].Frame? && es[i].key == key && Defined(es).frames[key] == es[i]
    ensures forall j :: i < j < |es| && es[j].Frame? ==> es[j].key != key
  {
    var n := |es| - 1;
    if es[n].Frame? && es[n].key == key {
      i := n;
    } else {
      i := LatestFrame(es[..n], key);
    }
  }

  /** And its strings in the latest string events with their references. */
  lemma {:induction false} LatestString(es: seq<Event>, ref: nat) returns (i: nat)
    requires ref in Defined(es).strings
    ensures i < |es| && es[i].StringDef? && es[i].ref == ref && Defined(es).strings[ref] == es[i].text
    ensures forall j :: i < j < |es| && es[j].StringDef? ==> es[j].ref != ref
  {
    var n := |es| - 1;
    if es[n].StringDef? && es[n].ref == ref {
      i := n;
    } else {
      i := LatestString(es[..n], ref);
    }
  }

  // ---- Order of definitions ---------------------------------------------------------------------------

  ghost predicate DefinesString(es: seq<Event>, i: int, ref: nat) {
    0 <= i < |es| && es[i].StringDef? && es[i].ref == ref
  }

  /** Every frame event follows definitions of both its strings. */
  ghost predicate Grounded(es: seq<Event>) {
    forall f :: 0 <= f < |es| && es[f].Frame? ==>
      (exists g :: g < f && DefinesString(es, g, es[f].filename))
      && (exists h :: h < f && DefinesString(es, h, es[f].scope))
  }

  lemma {:induction false} GroundedMore(es: seq<Event>, more: seq<Event>)
    requires Grounded(es) && forall i :: 0 <= i < |more| ==> !more[i].Frame?
    ensures Grounded(es + more)
  {
    var all := es + more;
    forall f | 0 <= f < |all| && all[f].Frame?
      ensures exists g :: g < f && DefinesString(all, g, all[f].filename)
      ensures exists h :: h < f && DefinesString(all, h, all[f].scope)
    {
      var g :| g < f && DefinesString(es, g, es[f].filename);
      var h :| h < f && DefinesString(es, h, es[f].scope);
      assert DefinesString(all, g, all[f].filename) && DefinesString(all, h, all[f].scope);
    }
  }

  lemma {:induction false} GroundedFrame(es: seq<Event>, e: Event)
    requires Grounded(es) && e.Frame? && e.filename in Defined(es).strings && e.scope in Defined(es).strings
    ensures Grounded(es + [e])
  {
    var all := es + [e];
    var i := LatestString(es, e.filename);
    var j := LatestString(es, e.scope);
    assert DefinesString(all, i, e.filename) && DefinesString(all, j, e.scope);
    forall f | 0 <= f < |es| && all[f].Frame?
      ensures exists g :: g < f && DefinesString(all, g, all[f].filename)
      ensures exists h :: h < f && DefinesString(all, h, all[f].scope)
    {
      var g :| g < f && DefinesString(es, g, es[f].filename);
      var h :| h < f && DefinesString(es, h, es[f].scope);
      assert DefinesString(all, g, all[f].filename) && DefinesString(all, h, all[f].scope);
    }
  }

  /** A reference can be told only if its frame was defined before it, and the frame's strings before that. */
  lemma {:induction false} LineTold(es: seq<Event>, key: nat)
    requires Grounded(es)
    ensures LookUp(Defined(es), key).Some? ==>
      exists f, g, h ::
        && 0 <= f < |es| && es[f].Frame? && es[f].key == key
        && g < f && DefinesString(es, g, es[f].filename)
        && h < f && DefinesString(es, h, es[f].scope)
  {
    hide Defined;
    if LookUp(Defined(es), key).Some? {
      var f := LatestFrame(es, key);
      var g :| g < f && DefinesString(es, g, es[f].filename);
      var h :| h < f && DefinesString(es, h, es[f].scope);
    }
  }

  /** Read a file: parse its bytes and show its items. */
  function ReadBytes(bs: seq<Byte>): Option<seq<Item>> {
    match ParseAll(bs)
    case None => None
    case Some(es) => Some(Items(es))
  }
}
