/**
 * The tree builder: a visitor that turns a stream of events into one JSON
 * document. It keeps two stacks. The item stack holds the values finished so
 * far, each with the key it was announced under and a running index. The
 * structure stack holds one frame per open container, which points at that
 * container's item. Closing a container moves the items above it into it.
 * Closing the outermost container, or a scalar at the top level, makes the
 * result available.
 *
 * `Open`, `Close` and `Store` give each event's effect on the whole state, and
 * `Run` folds them over a stream. The class `JsonDecoder` updates its fields in
 * place and is proved against these functions. `Serialize` is an independent
 * reading of the events one document stands for; `DocumentRoundTrip` proves
 * that the builder returns exactly that document.
 */
module JsonDecoding {
  import opened Events

  // ---------------------------------------------------------------------------
  // Documents.

  /** A JSON value with the semantic tag it was built with. */
  datatype Json =
    | Null(tag: SemanticTag)
    | Boolean(b: bool, tag: SemanticTag)
    | Int64(i: int, tag: SemanticTag)
    | Uint64(u: nat, tag: SemanticTag)
    | HalfFloat(h: bv16, tag: SemanticTag)
    | Double(d: Float64, tag: SemanticTag)
    | Str(text: string, tag: SemanticTag)
    | Bytes(bytes: seq<Byte>, tag: SemanticTag)
    | ExtBytes(bytes: seq<Byte>, extTag: nat)
    | Array(elements: seq<Json>, tag: SemanticTag)
    | Object(members: seq<Member>, tag: SemanticTag)

  /** An object member: its key and its value, in the order the object received them. */
  datatype Member = Member(key: string, value: Json)

  predicate IsScalar(j: Json)
  {
    !j.Array? && !j.Object?
  }

  predicate IsScalarEvent(e: Event)
  {
    || e.StringValue? || e.ByteStringValue? || e.ByteStringExtValue?
    || e.Uint64Value? || e.Int64Value? || e.HalfValue? || e.DoubleValue?
    || e.BoolValue? || e.NullValue?
  }

  /** The value a scalar event builds. */
  function ScalarOf(e: Event): Json
    requires IsScalarEvent(e)
  {
    match e
    case StringValue(text, tag) => Str(text, tag)
    case ByteStringValue(bytes, tag) => Bytes(bytes, tag)
    case ByteStringExtValue(bytes, extTag) => ExtBytes(bytes, extTag)
    case Uint64Value(u, tag) => Uint64(u, tag)
    case Int64Value(i, tag) => Int64(i, tag)
    case HalfValue(h, tag) => HalfFloat(h, tag)
    case DoubleValue(d, tag) => Double(d, tag)
    case BoolValue(b, tag) => Boolean(b, tag)
    case NullValue(tag) => Null(tag)
  }

  /** The event a scalar value stands for; the builder turns it back into the same value. */
  function ScalarEvent(j: Json): (e: Event)
    requires IsScalar(j)
    ensures IsScalarEvent(e) && ScalarOf(e) == j
  {
    match j
    case Null(tag) => NullValue(tag)
    case Boolean(b, tag) => BoolValue(b, tag)
    case Int64(i, tag) => Int64Value(i, tag)
    case Uint64(u, tag) => Uint64Value(u, tag)
    case HalfFloat(h, tag) => HalfValue(h, tag)
    case Double(d, tag) => DoubleValue(d, tag)
    case Str(text, tag) => StringValue(text, tag)
    case Bytes(bytes, tag) => ByteStringValue(bytes, tag)
    case ExtBytes(bytes, extTag) => ByteStringExtValue(bytes, extTag)
  }

  /** The events a document stands for: a scalar event, or a begin, the children (members preceded by their keys) and an end. */
  function Serialize(j: Json): seq<Event>
    decreases j
  {
    if j.Array? then [BeginArray(None, j.tag)] + SerializeElements(j.elements) + [EndArray]
    else if j.Object? then [BeginObject(None, j.tag)] + SerializeMembers(j.members) + [EndObject]
    else [ScalarEvent(j)]
  }

  function SerializeElements(es: seq<Json>): seq<Event>
    decreases es
  {
    if es == [] then [] else Serialize(es[0]) + SerializeElements(es[1..])
  }

  function SerializeMembers(ms: seq<Member>): seq<Event>
    decreases ms
  {
    if ms == [] then [] else [Key(ms[0].key)] + Serialize(ms[0].value) + SerializeMembers(ms[1..])
  }

  /** The number of values in a document, containers included: how far it moves the running index. */
  function Count(j: Json): nat
    decreases j
  {
    if j.Array? then 1 + CountElements(j.elements)
    else if j.Object? then 1 + CountMembers(j.members)
    else 1
  }

  function CountElements(es: seq<Json>): nat
    decreases es
  {
    if es == [] then 0 else Count(es[0]) + CountElements(es[1..])
  }

  function CountMembers(ms: seq<Member>): nat
    decreases ms
  {
    if ms == [] then 0 else Count(ms[0].value) + CountMembers(ms[1..])
  }

  // ---------------------------------------------------------------------------
  // The builder's state.

  datatype StructureType = Root | InArray | InObject

  /** A frame of the structure stack: the kind of level and the item-stack position of its container. */
  datatype Frame = Frame(kind: StructureType, containerIndex: nat)

  /** An entry of the item stack: the key it was announced under, its running index and its value. */
  datatype Item = Item(name: string, index: nat, value: Json)

  datatype DecoderState = DecoderState(
    result: Json, index: nat, name: string, items: seq<Item>, frames: seq<Frame>, isValid: bool)

  function Top(s: DecoderState): Frame
    requires |s.frames| > 0
  {
    s.frames[|s.frames| - 1]
  }

  predicate HoldsKind(v: Json, kind: StructureType)
  {
    (kind == InArray ==> v.Array?) && (kind == InObject ==> v.Object?)
  }

  /**
   * The invariant the builder keeps: the bottom frame is the root and no
   * other frame is; every other frame points, in increasing order, at an item
   * holding a container of its kind, the outermost one at position 0; at the
   * top level the item stack is empty.
   */
  predicate Consistent(s: DecoderState)
  {
    && |s.frames| >= 1
    && s.frames[0] == Frame(Root, 0)
    && (forall k :: 1 <= k < |s.frames| ==>
          && s.frames[k].kind != Root
          && s.frames[k].containerIndex < |s.items|
          && HoldsKind(s.items[s.frames[k].containerIndex].value, s.frames[k].kind))
    && (forall j, k :: 1 <= j < k < |s.frames| ==> s.frames[j].containerIndex < s.frames[k].containerIndex)
    && (|s.frames| == 1 ==> s.items == [])
    && (|s.frames| > 1 ==> s.frames[1].containerIndex == 0)
  }

  /** The values of a run of items, in order. */
  function ValuesOf(items: seq<Item>): (r: seq<Json>)
    ensures |r| == |items|
  {
    if items == [] then [] else ValuesOf(items[..|items| - 1]) + [items[|items| - 1].value]
  }

  /** The members a run of items hands to an object: each item's key and value, in order. */
  function MembersOf(items: seq<Item>): (r: seq<Member>)
    ensures |r| == |items|
  {
    if items == [] then [] else MembersOf(items[..|items| - 1]) + [Member(items[|items| - 1].name, items[|items| - 1].value)]
  }

  lemma {:induction false} ValuesOfAppend(a: seq<Item>, b: seq<Item>)
    ensures ValuesOf(a + b) == ValuesOf(a) + ValuesOf(b)
    decreases |b|
  {
    if b != [] {
      assert (a + b)[..|a + b| - 1] == a + b[..|b| - 1];
      ValuesOfAppend(a, b[..|b| - 1]);
    } else {
      assert a + b == a;
    }
  }

  lemma {:induction false} MembersOfAppend(a: seq<Item>, b: seq<Item>)
    ensures MembersOf(a + b) == MembersOf(a) + MembersOf(b)
    decreases |b|
  {
    if b != [] {
      assert (a + b)[..|a + b| - 1] == a + b[..|b| - 1];
      MembersOfAppend(a, b[..|b| - 1]);
    } else {
      assert a + b == a;
    }
  }

  /** The innermost open container is an item of its kind. */
  lemma TopHolds(s: DecoderState)
    requires Consistent(s) && |s.frames| > 1
    ensures Top(s).containerIndex < |s.items| && HoldsKind(s.items[Top(s).containerIndex].value, Top(s).kind)
  {
    var k := |s.frames| - 1;
    assert 1 <= k < |s.frames|;
  }

  /** `Close` is the filling of the innermost container followed by the popping of its frame. */
  lemma CloseAfterFill(s: DecoderState, mid: DecoderState)
    requires |s.frames| > 1 && Top(s).containerIndex < |s.items|
    requires var ci := Top(s).containerIndex;
      mid == s.(items := s.items[..ci] + [s.items[ci].(value := Fill(s.items[ci].value, s.items[ci + 1..]))])
    ensures var frames := mid.frames[..|mid.frames| - 1];
      if frames[|frames| - 1].kind == Root then
        var swapped := mid.items[0 := mid.items[0].(value := mid.result)];
        Close(s) == mid.(result := mid.items[0].value, items := swapped[..|swapped| - 1], frames := frames, isValid := true)
      else
        Close(s) == mid.(frames := frames)
  {
  }

  /** The container `v` once it has received the items above it: an array appends their values, an object their keys and values. */
  function Fill(v: Json, above: seq<Item>): Json
  {
    if v.Array? then Array(v.elements + ValuesOf(above), v.tag)
    else if v.Object? then Object(v.members + MembersOf(above), v.tag)
    else v
  }

  // ---------------------------------------------------------------------------
  // One event.

  /** The state after construction or a reset: only the root frame, no items, nothing available. Key and result are kept. */
  function AfterReset(s: DecoderState): (t: DecoderState)
    ensures Consistent(t) && !t.isValid && t.items == [] && t.frames == [Frame(Root, 0)] && t.index == 0
    ensures t.result == s.result && t.name == s.name
  {
    s.(index := 0, items := [], frames := [Frame(Root, 0)], isValid := false)
  }

  /** A container that receives nothing is left as it was. */
  lemma FillNothing(v: Json)
    ensures Fill(v, []) == v
  {
    if v.Array? {
      assert v.elements + [] == v.elements;
    } else if v.Object? {
      assert v.members + [] == v.members;
    }
  }

  /** An empty container of the kind a frame stands for. */
  function EmptyContainer(kind: StructureType, tag: SemanticTag): (v: Json)
    requires kind != Root
    ensures HoldsKind(v, kind)
  {
    if kind == InArray then Array([], tag) else Object([], tag)
  }

  /**
   * A begin event. At the top level it first discards the items and the
   * running index and withdraws the result. Then it pushes one item holding an
   * empty container under the pending key, and one frame pointing at it.
   */
  function Open(s: DecoderState, kind: StructureType, tag: SemanticTag): (t: DecoderState)
    requires |s.frames| > 0 && kind != Root
    ensures |t.items| > 0 && t.frames == s.frames + [Frame(kind, |t.items| - 1)]
    ensures t.index > 0 && t.items[|t.items| - 1] == Item(s.name, t.index - 1, EmptyContainer(kind, tag))
    ensures t.name == "" && t.result == s.result
  {
    var atRoot := Top(s).kind == Root;
    var index := if atRoot then 0 else s.index;
    var kept := if atRoot then [] else s.items;
    var items := kept + [Item(s.name, index, EmptyContainer(kind, tag))];
    s.(index := index + 1, name := "", items := items,
       frames := s.frames + [Frame(kind, |items| - 1)], isValid := if atRoot then false else s.isValid)
  }

  /**
   * A scalar event. At the top level the value becomes the result and is
   * available, and the item stack is left alone; inside a container it is
   * pushed as one item under the pending key.
   */
  function Store(s: DecoderState, v: Json): (t: DecoderState)
    requires |s.frames| > 0
    ensures t.frames == s.frames
  {
    if Top(s).kind == Root then s.(result := v, isValid := true)
    else s.(index := s.index + 1, name := "", items := s.items + [Item(s.name, s.index, v)])
  }

  /**
   * An end event. The container receives the items above it, which are erased,
   * and its frame is popped. If that leaves the top level, the container is
   * swapped into the result, its item is popped and the result is available.
   */
  function Close(s: DecoderState): (t: DecoderState)
    requires |s.frames| > 1 && Top(s).containerIndex < |s.items|
    ensures t.frames == s.frames[..|s.frames| - 1]
  {
    var ci := Top(s).containerIndex;
    var container := s.items[ci];
    var items := s.items[..ci] + [container.(value := Fill(container.value, s.items[ci + 1..]))];
    var frames := s.frames[..|s.frames| - 1];
    if frames[|frames| - 1].kind == Root then
      var swapped := items[0 := items[0].(value := s.result)];
      s.(result := items[0].value, items := swapped[..|swapped| - 1], frames := frames, isValid := true)
    else
      s.(items := items, frames := frames)
  }

  /**
   * The events the builder handles in state `s`: an end event asserts that the
   * innermost frame is of its kind and points inside the item stack, and every
   * event but a key reads the innermost frame. The end of an object also needs
   * a frame below its own, which the end of an array asserts.
   */
  predicate Accepts(s: DecoderState, e: Event)
  {
    if e.EndObject? then |s.frames| > 1 && Top(s).kind == InObject && Top(s).containerIndex < |s.items|
    else if e.EndArray? then |s.frames| > 1 && Top(s).kind == InArray && Top(s).containerIndex < |s.items|
    else if e.Key? || e.Flush? then true
    else (e.BeginObject? || e.BeginArray? || IsScalarEvent(e)) && |s.frames| > 0
  }

  function Step(s: DecoderState, e: Event): DecoderState
    requires Accepts(s, e)
  {
    if e.BeginObject? then Open(s, InObject, e.tag)
    else if e.BeginArray? then Open(s, InArray, e.tag)
    else if e.EndObject? || e.EndArray? then Close(s)
    else if e.Key? then s.(name := e.name)
    else if e.Flush? then s
    else Store(s, ScalarOf(e))
  }

  /** The state after a stream of events, or `None` if one of them breaks an assertion of the library. */
  function Run(s: DecoderState, events: seq<Event>): Option<DecoderState>
    decreases |events|
  {
    if events == [] then Some(s)
    else if Accepts(s, events[0]) then Run(Step(s, events[0]), events[1..])
    else None
  }

  // ---------------------------------------------------------------------------
  // The invariant.

  /** In a consistent state, the only assertion an end event can break is the kind of the innermost frame. */
  lemma ConsistentAccepts(s: DecoderState, e: Event)
    requires Consistent(s)
    ensures e.EndObject? ==> (Accepts(s, e) <==> Top(s).kind == InObject)
    ensures e.EndArray? ==> (Accepts(s, e) <==> Top(s).kind == InArray)
    ensures !e.EndObject? && !e.EndArray? ==> (Accepts(s, e) <==> !e.TypedArrayValue? && !e.BeginMultiDim? && !e.EndMultiDim?)
  {
  }

  lemma OpenKeepsConsistent(s: DecoderState, kind: StructureType, tag: SemanticTag)
    requires Consistent(s) && kind != Root
    ensures Consistent(Open(s, kind, tag))
  {
  }

  lemma StoreKeepsConsistent(s: DecoderState, v: Json)
    requires Consistent(s)
    ensures Consistent(Store(s, v))
  {
  }

  lemma CloseKeepsConsistent(s: DecoderState)
    requires Consistent(s) && |s.frames| > 1
    ensures Top(s).containerIndex < |s.items| && Consistent(Close(s))
  {
  }

  /** Every event the builder accepts keeps its state consistent. */
  lemma StepKeepsConsistent(s: DecoderState, e: Event)
    requires Consistent(s) && Accepts(s, e)
    ensures Consistent(Step(s, e))
  {
    if e.BeginObject? || e.BeginArray? {
      OpenKeepsConsistent(s, if e.BeginObject? then InObject else InArray, e.tag);
    } else if e.EndObject? || e.EndArray? {
      CloseKeepsConsistent(s);
    } else if IsScalarEvent(e) {
      StoreKeepsConsistent(s, ScalarOf(e));
    }
  }

  /** So does every stream it gets through. */
  lemma {:induction false} RunKeepsConsistent(s: DecoderState, events: seq<Event>)
    requires Consistent(s) && Run(s, events).Some?
    ensures Consistent(Run(s, events).value)
    decreases |events|
  {
    if events != [] {
      StepKeepsConsistent(s, events[0]);
      RunKeepsConsistent(Step(s, events[0]), events[1..]);
    }
  }

  // ---------------------------------------------------------------------------
  // Properties of single events.

  /** A begin at the top level discards the earlier items and withdraws the result: the new container is the only item, at index 0. */
  lemma BeginAtTopLevel(s: DecoderState, kind: StructureType, tag: SemanticTag)
    requires Consistent(s) && kind != Root && |s.frames| == 1
    ensures var t := Open(s, kind, tag);
      && |t.items| == 1 && t.items[0].index == 0 && t.index == 1 && !t.isValid
      && HoldsKind(t.items[0].value, kind) && t.frames == [Frame(Root, 0), Frame(kind, 0)]
  {
  }

  /** A begin inside a container keeps every item and pushes exactly one, under the pending key and the running index. */
  lemma BeginInside(s: DecoderState, kind: StructureType, tag: SemanticTag)
    requires Consistent(s) && kind != Root && |s.frames| > 1
    ensures var t := Open(s, kind, tag);
      && t.items[..|s.items|] == s.items && |t.items| == |s.items| + 1
      && t.items[|s.items|].name == s.name && t.items[|s.items|].index == s.index
      && t.index == s.index + 1 && t.isValid == s.isValid
  {
  }

  /** A scalar at the top level becomes the available result and touches neither stack. */
  lemma ScalarAtTopLevel(s: DecoderState, v: Json)
    requires Consistent(s) && |s.frames| == 1
    ensures var t := Store(s, v);
      t.result == v && t.isValid && t.items == s.items == [] && t.name == s.name && t.index == s.index
  {
  }

  /** A scalar inside a container is pushed as exactly one item under the pending key, and the result is left alone. */
  lemma ScalarInside(s: DecoderState, v: Json)
    requires Consistent(s) && |s.frames| > 1
    ensures var t := Store(s, v);
      && t.items == s.items + [Item(s.name, s.index, v)] && t.name == ""
      && t.result == s.result && t.isValid == s.isValid
  {
  }

  /**
   * Closing an inner container leaves the items below it alone, erases the
   * items above it and hands them to it in arrival order: an array appends
   * their values, an object their keys and values.
   */
  lemma CloseInner(s: DecoderState)
    requires Consistent(s) && |s.frames| > 2
    ensures var ci := Top(s).containerIndex; var t := Close(s);
      && |t.items| == ci + 1 && t.items[..ci] == s.items[..ci]
      && t.items[ci].name == s.items[ci].name && t.items[ci].index == s.items[ci].index
      && (Top(s).kind == InArray ==>
            t.items[ci].value.Array? && t.items[ci].value.elements == s.items[ci].value.elements + ValuesOf(s.items[ci + 1..]))
      && (Top(s).kind == InObject ==>
            t.items[ci].value.Object? && t.items[ci].value.members == s.items[ci].value.members + MembersOf(s.items[ci + 1..]))
      && t.result == s.result && t.isValid == s.isValid
  {
    assert s.frames[|s.frames| - 2].kind != Root;
  }

  /** Closing the outermost container makes it the available result and empties the item stack. */
  lemma CloseOutermost(s: DecoderState)
    requires Consistent(s) && |s.frames| == 2
    ensures var t := Close(s);
      && t.result == Fill(s.items[0].value, s.items[1..]) && t.isValid
      && t.items == [] && t.frames == [Frame(Root, 0)]
  {
  }

  // ---------------------------------------------------------------------------
  // Whole documents.

  lemma {:induction false} RunAppend(s: DecoderState, a: seq<Event>, b: seq<Event>)
    ensures Run(s, a + b) == if Run(s, a).Some? then Run(Run(s, a).value, b) else None
    decreases |a|
  {
    if a == [] {
      assert a + b == b;
    } else {
      assert (a + b)[0] == a[0] && (a + b)[1..] == a[1..] + b;
      if Accepts(s, a[0]) {
        RunAppend(Step(s, a[0]), a[1..], b);
      }
    }
  }

  lemma AppendAssoc<T>(a: seq<T>, b: seq<T>, c: seq<T>)
    ensures a + b + c == a + (b + c)
  {
  }

  lemma RunOne(s: DecoderState, e: Event)
    requires Accepts(s, e)
    ensures Run(s, [e]) == Some(Step(s, e))
  {
    assert ([e])[1..] == [];
  }

  /** The items the elements of an array leave above it: each value with an empty key and the running index it was given. */
  function ElementItems(es: seq<Json>, start: nat): (r: seq<Item>)
    ensures |r| == |es|
  {
    if es == [] then [] else [Item("", start, es[0])] + ElementItems(es[1..], start + Count(es[0]))
  }

  /** The items the members of an object leave above it: each value under its key, with the running index it was given. */
  function MemberItems(ms: seq<Member>, start: nat): (r: seq<Item>)
    ensures |r| == |ms|
  {
    if ms == [] then [] else [Item(ms[0].key, start, ms[0].value)] + MemberItems(ms[1..], start + Count(ms[0].value))
  }

  lemma {:induction false} ElementValues(es: seq<Json>, start: nat)
    ensures ValuesOf(ElementItems(es, start)) == es
    decreases es
  {
    if es != [] {
      var first := [Item("", start, es[0])];
      ValuesOfAppend(first, ElementItems(es[1..], start + Count(es[0])));
      ElementValues(es[1..], start + Count(es[0]));
      assert ValuesOf(first) == [es[0]] by {
        assert first[..0] == [];
      }
    }
  }

  lemma {:induction false} MemberPairs(ms: seq<Member>, start: nat)
    ensures MembersOf(MemberItems(ms, start)) == ms
    decreases ms
  {
    if ms != [] {
      var first := [Item(ms[0].key, start, ms[0].value)];
      MembersOfAppend(first, MemberItems(ms[1..], start + Count(ms[0].value)));
      MemberPairs(ms[1..], start + Count(ms[0].value));
      assert MembersOf(first) == [ms[0]] by {
        assert first[..0] == [];
      }
    }
  }

  /** The innermost level is a container. */
  predicate Inside(s: DecoderState)
  {
    |s.frames| > 0 && Top(s).kind != Root
  }

  /**
   * Inside a container, the events of any document push exactly one item:
   * that document, under the pending key and the running index. Nothing below
   * it changes, and the running index moves past every value it contains.
   */
  lemma {:induction false} DocumentInside(s: DecoderState, j: Json)
    requires Inside(s)
    ensures Run(s, Serialize(j)) ==
      Some(s.(items := s.items + [Item(s.name, s.index, j)], index := s.index + Count(j), name := ""))
    decreases j, 3
  {
    match j
    case Array(es, tag) => ArrayInside(s, es, tag);
    case Object(ms, tag) => ObjectInside(s, ms, tag);
    case _ => RunOne(s, ScalarEvent(j));
  }

  /** The state `s` once items `above`, and `n` values in all, have been pushed on its item stack. */
  function Appended(s: DecoderState, above: seq<Item>, n: nat): DecoderState
  {
    s.(items := s.items + above, index := s.index + n)
  }

  /** Closing a container opened inside another, after its children left `above`, gives `s` plus one item holding the filled container. */
  lemma {:induction false} ClosesInside(s: DecoderState, kind: StructureType, tag: SemanticTag, above: seq<Item>, n: nat)
    requires Inside(s) && kind != Root
    ensures var s2 := Appended(Open(s, kind, tag), above, n);
      Then(Some(s2), if kind == InArray then EndArray else EndObject) ==
      Some(s.(items := s.items + [Item(s.name, s.index, Fill(EmptyContainer(kind, tag), above))], index := s.index + 1 + n, name := ""))
  {
    var s2 := Appended(Open(s, kind, tag), above, n);
    var ci := |s.items|;
    assert s2.items == s.items + [Item(s.name, s.index, EmptyContainer(kind, tag))] + above;
    assert s2.items[ci] == Item(s.name, s.index, EmptyContainer(kind, tag));
    assert s2.items[ci + 1..] == above;
    assert s2.items[..ci] == s.items;
    assert s2.frames[..|s2.frames| - 1] == s.frames;
    assert Accepts(s2, if kind == InArray then EndArray else EndObject);
  }

  /** Closing a container opened at the top level, after its children left `above`, makes it, filled, the available result. */
  lemma {:induction false} ClosesAtTopLevel(s: DecoderState, kind: StructureType, tag: SemanticTag, above: seq<Item>, n: nat)
    requires |s.frames| > 0 && Top(s).kind == Root && kind != Root
    ensures var s2 := Appended(Open(s, kind, tag), above, n);
      && |s2.frames| > 1 && Top(s2) == Frame(kind, 0) && 0 < |s2.items|
      && var t := Close(s2);
      t.result == Fill(EmptyContainer(kind, tag), above) && t.isValid && t.items == [] && t.frames == s.frames
  {
    var s2 := Appended(Open(s, kind, tag), above, n);
    assert s2.items == [Item(s.name, 0, EmptyContainer(kind, tag))] + above;
    assert s2.items[1..] == above;
    assert s2.frames[..|s2.frames| - 1] == s.frames;
  }

  /** Running a begin, some children and an end is running each part in turn. */
  lemma {:induction false} RunContainer(s: DecoderState, b: Event, children: seq<Event>, e: Event)
    requires Accepts(s, b)
    ensures Run(s, [b] + children + [e]) ==
      if Run(Step(s, b), children).Some? then Run(Run(Step(s, b), children).value, [e]) else None
  {
    RunAppend(s, [b] + children, [e]);
    RunAppend(s, [b], children);
    RunOne(s, b);
  }

  /** The outcome of one more event after a stream. */
  function Then(r: Option<DecoderState>, e: Event): Option<DecoderState>
  {
    if r.Some? && Accepts(r.value, e) then Some(Step(r.value, e)) else None
  }

  /** The events of an array run from `s` are its begin, its elements and its end, in turn. */
  lemma {:induction false} RunArray(s: DecoderState, es: seq<Json>, tag: SemanticTag)
    requires |s.frames| > 0
    ensures Run(s, Serialize(Array(es, tag))) == Then(Run(Open(s, InArray, tag), SerializeElements(es)), EndArray)
  {
    RunContainer(s, BeginArray(None, tag), SerializeElements(es), EndArray);
    var r := Run(Open(s, InArray, tag), SerializeElements(es));
    if r.Some? && Accepts(r.value, EndArray) {
      RunOne(r.value, EndArray);
    }
  }

  /** The events of an object run from `s` are its begin, its members and its end, in turn. */
  lemma {:induction false} RunObject(s: DecoderState, ms: seq<Member>, tag: SemanticTag)
    requires |s.frames| > 0
    ensures Run(s, Serialize(Object(ms, tag))) == Then(Run(Open(s, InObject, tag), SerializeMembers(ms)), EndObject)
  {
    RunContainer(s, BeginObject(None, tag), SerializeMembers(ms), EndObject);
    var r := Run(Open(s, InObject, tag), SerializeMembers(ms));
    if r.Some? && Accepts(r.value, EndObject) {
      RunOne(r.value, EndObject);
    }
  }

  /** An empty container that receives `above` holds exactly their values, or their members. */
  lemma FillEmpty(kind: StructureType, tag: SemanticTag, above: seq<Item>)
    requires kind != Root
    ensures Fill(EmptyContainer(kind, tag), above) ==
      if kind == InArray then Array(ValuesOf(above), tag) else Object(MembersOf(above), tag)
  {
    assert [] + ValuesOf(above) == ValuesOf(above);
    assert [] + MembersOf(above) == MembersOf(above);
  }

  /** Inside a container, the end of an array whose `n` pushed values leave items holding its elements leaves one item holding the array. */
  lemma ArrayCloses(s: DecoderState, es: seq<Json>, tag: SemanticTag, above: seq<Item>, n: nat)
    requires Inside(s) && ValuesOf(above) == es
    ensures Then(Some(Appended(Open(s, InArray, tag), above, n)), EndArray) ==
      Some(s.(items := s.items + [Item(s.name, s.index, Array(es, tag))], index := s.index + 1 + n, name := ""))
  {
    FillEmpty(InArray, tag, above);
    ClosesInside(s, InArray, tag, above, n);
  }

  /** Inside a container, the end of an object whose `n` pushed values leave items holding its members leaves one item holding the object. */
  lemma ObjectCloses(s: DecoderState, ms: seq<Member>, tag: SemanticTag, above: seq<Item>, n: nat)
    requires Inside(s) && MembersOf(above) == ms
    ensures Then(Some(Appended(Open(s, InObject, tag), above, n)), EndObject) ==
      Some(s.(items := s.items + [Item(s.name, s.index, Object(ms, tag))], index := s.index + 1 + n, name := ""))
  {
    FillEmpty(InObject, tag, above);
    ClosesInside(s, InObject, tag, above, n);
  }

  /** `ArrayInside` for children that leave the items `above` and move the index by `n`. */
  lemma ArrayInsideFrom(s: DecoderState, es: seq<Json>, tag: SemanticTag, above: seq<Item>, n: nat)
    requires Inside(s) && ValuesOf(above) == es
    requires Run(Open(s, InArray, tag), SerializeElements(es)) == Some(Appended(Open(s, InArray, tag), above, n))
    ensures Run(s, Serialize(Array(es, tag))) ==
      Some(s.(items := s.items + [Item(s.name, s.index, Array(es, tag))], index := s.index + 1 + n, name := ""))
  {
    RunArray(s, es, tag);
    ArrayCloses(s, es, tag, above, n);
  }

  lemma {:induction false} ArrayInside(s: DecoderState, es: seq<Json>, tag: SemanticTag)
    requires Inside(s)
    ensures Run(s, Serialize(Array(es, tag))) ==
      Some(s.(items := s.items + [Item(s.name, s.index, Array(es, tag))], index := s.index + Count(Array(es, tag)), name := ""))
    decreases Array(es, tag), 2
  {
    var s1 := Open(s, InArray, tag);
    ElementsInside(s1, es);
    ElementValues(es, s1.index);
    ArrayInsideFrom(s, es, tag, ElementItems(es, s1.index), CountElements(es));
    assert Count(Array(es, tag)) == 1 + CountElements(es);
  }

  /** `ObjectInside` for children that leave the items `above` and move the index by `n`. */
  lemma ObjectInsideFrom(s: DecoderState, ms: seq<Member>, tag: SemanticTag, above: seq<Item>, n: nat)
    requires Inside(s) && MembersOf(above) == ms
    requires Run(Open(s, InObject, tag), SerializeMembers(ms)) == Some(Appended(Open(s, InObject, tag), above, n))
    ensures Run(s, Serialize(Object(ms, tag))) ==
      Some(s.(items := s.items + [Item(s.name, s.index, Object(ms, tag))], index := s.index + 1 + n, name := ""))
  {
    RunObject(s, ms, tag);
    ObjectCloses(s, ms, tag, above, n);
  }

  lemma {:induction false} ObjectInside(s: DecoderState, ms: seq<Member>, tag: SemanticTag)
    requires Inside(s)
    ensures Run(s, Serialize(Object(ms, tag))) ==
      Some(s.(items := s.items + [Item(s.name, s.index, Object(ms, tag))], index := s.index + Count(Object(ms, tag)), name := ""))
    decreases Object(ms, tag), 2
  {
    var s1 := Open(s, InObject, tag);
    MembersInside(s1, ms);
    MemberPairs(ms, s1.index);
    ObjectInsideFrom(s, ms, tag, MemberItems(ms, s1.index), CountMembers(ms));
    assert Count(Object(ms, tag)) == 1 + CountMembers(ms);
  }

  /** The items of the first element, then those of the rest from index `k`, are the items of all the elements. */
  lemma ElementsJoin(s: DecoderState, es: seq<Json>, k: nat)
    requires es != [] && k == s.index + Count(es[0])
    ensures Appended(Appended(s, [Item("", s.index, es[0])], Count(es[0])), ElementItems(es[1..], k), CountElements(es[1..])) ==
      Appended(s, ElementItems(es, s.index), CountElements(es))
  {
    var first := [Item("", s.index, es[0])];
    var rest := ElementItems(es[1..], k);
    assert ElementItems(es, s.index) == first + rest;
    assert CountElements(es) == Count(es[0]) + CountElements(es[1..]);
    AppendAssoc(s.items, first, rest);
  }

  /** The items of the first member, then those of the rest from index `k`, are the items of all the members. */
  lemma MembersJoin(s: DecoderState, ms: seq<Member>, k: nat)
    requires ms != [] && k == s.index + Count(ms[0].value)
    ensures Appended(Appended(s, [Item(ms[0].key, s.index, ms[0].value)], Count(ms[0].value)), MemberItems(ms[1..], k), CountMembers(ms[1..])) ==
      Appended(s, MemberItems(ms, s.index), CountMembers(ms))
  {
    var first := [Item(ms[0].key, s.index, ms[0].value)];
    var rest := MemberItems(ms[1..], k);
    assert MemberItems(ms, s.index) == first + rest;
    assert CountMembers(ms) == Count(ms[0].value) + CountMembers(ms[1..]);
    AppendAssoc(s.items, first, rest);
  }

  /** The first element of an array, run inside it, is pushed and the rest runs after it. */
  lemma {:induction false} FirstElementInside(s: DecoderState, es: seq<Json>)
    requires Inside(s) && s.name == "" && es != []
    ensures Run(s, SerializeElements(es)) ==
      Run(Appended(s, [Item("", s.index, es[0])], Count(es[0])), SerializeElements(es[1..]))
    decreases es, 0
  {
    assert SerializeElements(es) == Serialize(es[0]) + SerializeElements(es[1..]);
    ElementInside(s, es[0]);
    RunAppend(s, Serialize(es[0]), SerializeElements(es[1..]));
  }

  /** The elements of an array, run inside it, leave their values above it in order. */
  lemma {:induction false} ElementsInside(s: DecoderState, es: seq<Json>)
    requires Inside(s) && s.name == ""
    ensures Run(s, SerializeElements(es)) ==
      Some(Appended(s, ElementItems(es, s.index), CountElements(es)))
    decreases es, 2
  {
    if es == [] {
      assert s.items + [] == s.items;
    } else {
      var s1 := Appended(s, [Item("", s.index, es[0])], Count(es[0]));
      ElementsInside(s1, es[1..]);
      ElementsStep(s, es, s1);
    }
  }

  /** The step of `ElementsInside`: the first element's run, then the rest's, give the run of all the elements. */
  lemma {:induction false} ElementsStep(s: DecoderState, es: seq<Json>, s1: DecoderState)
    requires Inside(s) && s.name == "" && es != []
    requires s1 == Appended(s, [Item("", s.index, es[0])], Count(es[0]))
    requires Run(s1, SerializeElements(es[1..])) == Some(Appended(s1, ElementItems(es[1..], s1.index), CountElements(es[1..])))
    ensures Run(s, SerializeElements(es)) == Some(Appended(s, ElementItems(es, s.index), CountElements(es)))
    decreases es, 1
  {
    FirstElementInside(s, es);
    ElementsJoin(s, es, s1.index);
  }

  /** One element, run inside an array: it is pushed with the empty key. */
  lemma {:induction false} ElementInside(s: DecoderState, j: Json)
    requires Inside(s) && s.name == ""
    ensures Run(s, Serialize(j)) == Some(Appended(s, [Item("", s.index, j)], Count(j)))
    decreases j, 4
  {
    DocumentInside(s, j);
  }

  /** The first member of an object, run inside it, is pushed and the rest runs after it. */
  lemma {:induction false} FirstMemberInside(s: DecoderState, ms: seq<Member>)
    requires Inside(s) && s.name == "" && ms != []
    ensures Run(s, SerializeMembers(ms)) ==
      Run(Appended(s, [Item(ms[0].key, s.index, ms[0].value)], Count(ms[0].value)), SerializeMembers(ms[1..]))
    decreases ms, 0
  {
    var events := [Key(ms[0].key)] + Serialize(ms[0].value);
    assert SerializeMembers(ms) == events + SerializeMembers(ms[1..]);
    MemberInside(s, ms[0]);
    RunAppend(s, events, SerializeMembers(ms[1..]));
  }

  /** The members of an object, run inside it, leave their values above it, under their keys and in order. */
  lemma {:induction false} MembersInside(s: DecoderState, ms: seq<Member>)
    requires Inside(s) && s.name == ""
    ensures Run(s, SerializeMembers(ms)) ==
      Some(Appended(s, MemberItems(ms, s.index), CountMembers(ms)))
    decreases ms, 2
  {
    if ms == [] {
      assert s.items + [] == s.items;
    } else {
      var s1 := Appended(s, [Item(ms[0].key, s.index, ms[0].value)], Count(ms[0].value));
      MembersInside(s1, ms[1..]);
      MembersStep(s, ms, s1);
    }
  }

  /** The step of `MembersInside`: the first member's run, then the rest's, give the run of all the members. */
  lemma {:induction false} MembersStep(s: DecoderState, ms: seq<Member>, s1: DecoderState)
    requires Inside(s) && s.name == "" && ms != []
    requires s1 == Appended(s, [Item(ms[0].key, s.index, ms[0].value)], Count(ms[0].value))
    requires Run(s1, SerializeMembers(ms[1..])) == Some(Appended(s1, MemberItems(ms[1..], s1.index), CountMembers(ms[1..])))
    ensures Run(s, SerializeMembers(ms)) == Some(Appended(s, MemberItems(ms, s.index), CountMembers(ms)))
    decreases ms, 1
  {
    FirstMemberInside(s, ms);
    MembersJoin(s, ms, s1.index);
  }

  /** One member, run inside an object: its key, then its value, pushed under that key. */
  lemma {:induction false} MemberInside(s: DecoderState, m: Member)
    requires Inside(s) && s.name == ""
    ensures Run(s, [Key(m.key)] + Serialize(m.value)) == Some(Appended(s, [Item(m.key, s.index, m.value)], Count(m.value)))
    decreases m, 4
  {
    RunOne(s, Key(m.key));
    DocumentInside(s.(name := m.key), m.value);
    RunAppend(s, [Key(m.key)], Serialize(m.value));
  }

  /**
   * At the top level, the events of any document leave exactly that document
   * as the available result. A container leaves the item stack empty and a
   * scalar leaves it alone.
   */
  lemma DocumentAtTopLevel(s: DecoderState, j: Json)
    requires |s.frames| > 0 && Top(s).kind == Root
    ensures Run(s, Serialize(j)).Some?
    ensures var t := Run(s, Serialize(j)).value;
      && t.result == j && t.isValid && t.frames == s.frames
      && t.items == (if IsScalar(j) then s.items else [])
  {
    if j.Array? {
      ArrayAtTopLevel(s, j.elements, j.tag);
    } else if j.Object? {
      ObjectAtTopLevel(s, j.members, j.tag);
    } else {
      RunOne(s, ScalarEvent(j));
    }
  }

  /** `ArrayAtTopLevel` for children that leave the items `above` and move the index by `n`. */
  lemma ArrayAtTopLevelFrom(s: DecoderState, es: seq<Json>, tag: SemanticTag, above: seq<Item>, n: nat)
    requires |s.frames| > 0 && Top(s).kind == Root && ValuesOf(above) == es
    requires Run(Open(s, InArray, tag), SerializeElements(es)) == Some(Appended(Open(s, InArray, tag), above, n))
    ensures Run(s, Serialize(Array(es, tag))).Some?
    ensures var t := Run(s, Serialize(Array(es, tag))).value;
      t.result == Array(es, tag) && t.isValid && t.items == [] && t.frames == s.frames
  {
    RunArray(s, es, tag);
    ClosesAtTopLevel(s, InArray, tag, above, n);
    FillEmpty(InArray, tag, above);
  }

  lemma ArrayAtTopLevel(s: DecoderState, es: seq<Json>, tag: SemanticTag)
    requires |s.frames| > 0 && Top(s).kind == Root
    ensures Run(s, Serialize(Array(es, tag))).Some?
    ensures var t := Run(s, Serialize(Array(es, tag))).value;
      t.result == Array(es, tag) && t.isValid && t.items == [] && t.frames == s.frames
  {
    var s1 := Open(s, InArray, tag);
    ElementsInside(s1, es);
    ElementValues(es, s1.index);
    ArrayAtTopLevelFrom(s, es, tag, ElementItems(es, s1.index), CountElements(es));
  }

  /** `ObjectAtTopLevel` for children that leave the items `above` and move the index by `n`. */
  lemma ObjectAtTopLevelFrom(s: DecoderState, ms: seq<Member>, tag: SemanticTag, above: seq<Item>, n: nat)
    requires |s.frames| > 0 && Top(s).kind == Root && MembersOf(above) == ms
    requires Run(Open(s, InObject, tag), SerializeMembers(ms)) == Some(Appended(Open(s, InObject, tag), above, n))
    ensures Run(s, Serialize(Object(ms, tag))).Some?
    ensures var t := Run(s, Serialize(Object(ms, tag))).value;
      t.result == Object(ms, tag) && t.isValid && t.items == [] && t.frames == s.frames
  {
    RunObject(s, ms, tag);
    ClosesAtTopLevel(s, InObject, tag, above, n);
    FillEmpty(InObject, tag, above);
  }

  lemma ObjectAtTopLevel(s: DecoderState, ms: seq<Member>, tag: SemanticTag)
    requires |s.frames| > 0 && Top(s).kind == Root
    ensures Run(s, Serialize(Object(ms, tag))).Some?
    ensures var t := Run(s, Serialize(Object(ms, tag))).value;
      t.result == Object(ms, tag) && t.isValid && t.items == [] && t.frames == s.frames
  {
    var s1 := Open(s, InObject, tag);
    MembersInside(s1, ms);
    MemberPairs(ms, s1.index);
    ObjectAtTopLevelFrom(s, ms, tag, MemberItems(ms, s1.index), CountMembers(ms));
  }

  /** The state of a new builder. */
  function Initial(): (s: DecoderState)
    ensures Consistent(s) && |s.frames| == 1 && !s.isValid
  {
    DecoderState(Object([], NoTag), 0, "", [], [Frame(Root, 0)], false)
  }

  /** Fed the events of one document, a new builder has exactly that document available; so does a builder that finished one before. */
  lemma {:induction false} DocumentRoundTrip(j: Json, k: Json)
    ensures Run(Initial(), Serialize(j)).Some? && Run(Initial(), Serialize(j)).value.result == j
    ensures Run(Initial(), Serialize(j) + Serialize(k)).Some?
    ensures Run(Initial(), Serialize(j) + Serialize(k)).value.result == k
    ensures Run(Initial(), Serialize(j) + Serialize(k)).value.isValid
  {
    DocumentAtTopLevel(Initial(), j);
    var t := Run(Initial(), Serialize(j)).value;
    DocumentAtTopLevel(t, k);
    RunAppend(Initial(), Serialize(j), Serialize(k));
  }

  // ---------------------------------------------------------------------------
  // The builder as the library runs it.

  /**
   * The tree builder with its two stacks, running index, pending key, result
   * and availability as fields updated in place. Each visitor call is proved
   * to change the fields as the event's function says; `Consistent` of the
   * fields is the invariant the end events rely on.
   */
  class JsonDecoder {
    var result: Json
    var index: nat
    var name: string
    var itemStack: seq<Item>
    var structureStack: seq<Frame>
    var isValid: bool

    ghost function State(): DecoderState
      reads this
    {
      DecoderState(result, index, name, itemStack, structureStack, isValid)
    }

    /** A new builder: only the root frame, and the result is an empty object that is not available. */
    constructor()
      ensures State() == Initial()
    {
      result := Object([], NoTag);
      index := 0;
      name := "";
      itemStack := [];
      structureStack := [Frame(Root, 0)];
      isValid := false;
    }

    method Reset()
      modifies this
      ensures State() == AfterReset(old(State()))
    {
      isValid := false;
      index := 0;
      itemStack := [];
      structureStack := [Frame(Root, 0)];
    }

    /** Hands out the available result and withdraws it. */
    method GetResult() returns (r: Json)
      requires isValid
      modifies this
      ensures r == old(result) && State() == old(State()).(isValid := false)
    {
      isValid := false;
      r := result;
    }

    method VisitBeginObject(tag: SemanticTag)
      requires |structureStack| > 0
      modifies this
      ensures State() == Open(old(State()), InObject, tag)
    {
      Begin(InObject, tag);
    }

    method VisitBeginArray(tag: SemanticTag)
      requires |structureStack| > 0
      modifies this
      ensures State() == Open(old(State()), InArray, tag)
    {
      Begin(InArray, tag);
    }

    method Begin(kind: StructureType, tag: SemanticTag)
      requires |structureStack| > 0 && kind != Root
      modifies this
      ensures State() == Open(old(State()), kind, tag)
    {
      if structureStack[|structureStack| - 1].kind == Root {
        index := 0;
        itemStack := [];
        isValid := false;
      }
      itemStack := itemStack + [Item(name, index, EmptyContainer(kind, tag))];
      name := "";
      index := index + 1;
      structureStack := structureStack + [Frame(kind, |itemStack| - 1)];
    }

    /** The object receives all the items above it at once; they are then erased. */
    method VisitEndObject()
      requires Consistent(State()) && Top(State()).kind == InObject
      modifies this
      ensures State() == Close(old(State()))
    {
      TopHolds(State());
      ghost var s0 := State();
      FillObject();
      CloseAfterFill(s0, State());
      PopFrame();
    }

    /** The innermost object takes the members the items above it make, all at once, and those items are erased. */
    method FillObject()
      requires Consistent(State()) && |structureStack| > 1 && Top(State()).kind == InObject
      modifies this`itemStack
      ensures var s := old(State()); var ci := Top(s).containerIndex;
        State() == s.(items := s.items[..ci] + [s.items[ci].(value := Fill(s.items[ci].value, s.items[ci + 1..]))])
    {
      TopHolds(State());
      var ci := structureStack[|structureStack| - 1].containerIndex;
      var container := itemStack[ci];
      var count := |itemStack| - (ci + 1);
      if count > 0 {
        itemStack := itemStack[..ci] + [container.(value := Fill(container.value, itemStack[ci + 1..]))];
      } else {
        FillNothing(container.value);
        assert itemStack[ci + 1..] == [];
        assert itemStack == itemStack[..ci] + [container];
      }
    }

    /** The array receives the items above it one by one, in order; they are then erased. */
    method VisitEndArray()
      requires Consistent(State()) && |structureStack| > 1 && Top(State()).kind == InArray
      modifies this
      ensures State() == Close(old(State()))
    {
      TopHolds(State());
      ghost var s0 := State();
      FillArray();
      CloseAfterFill(s0, State());
      PopFrame();
    }

    /** The innermost array takes the values of the items above it, one by one and in order, and those items are erased. */
    method FillArray()
      requires Consistent(State()) && |structureStack| > 1 && Top(State()).kind == InArray
      modifies this`itemStack
      ensures var s := old(State()); var ci := Top(s).containerIndex;
        State() == s.(items := s.items[..ci] + [s.items[ci].(value := Fill(s.items[ci].value, s.items[ci + 1..]))])
    {
      TopHolds(State());
      var ci := structureStack[|structureStack| - 1].containerIndex;
      var container := itemStack[ci];
      var size := |itemStack| - (ci + 1);
      if size > 0 {
        var elements := PushValues(container.value.elements, itemStack, ci + 1);
        itemStack := itemStack[..ci] + [container.(value := Array(elements, container.value.tag))];
      } else {
        FillNothing(container.value);
        assert itemStack[ci + 1..] == [];
        assert itemStack == itemStack[..ci] + [container];
      }
    }

    /** Pushes the values of `items[from..]` onto `elements`, one by one and in order. */
    static method PushValues(elements: seq<Json>, items: seq<Item>, from: nat) returns (r: seq<Json>)
      requires from <= |items|
      ensures r == elements + ValuesOf(items[from..])
    {
      r := elements;
      var i := from;
      while i < |items|
        invariant from <= i <= |items|
        invariant r == elements + ValuesOf(items[from..i])
      {
        assert items[from..i + 1][..i - from] == items[from..i];
        r := r + [items[i].value];
        i := i + 1;
      }
      assert items[from..i] == items[from..];
    }

    /** Pops the closed container's frame; at the top level, swaps the container into the result and pops its item. */
    method PopFrame()
      requires |structureStack| > 1 && |itemStack| > 0
      modifies this
      ensures var frames := old(structureStack)[..|old(structureStack)| - 1];
        if frames[|frames| - 1].kind == Root then
          var swapped := old(itemStack)[0 := old(itemStack)[0].(value := old(result))];
          State() == old(State()).(result := old(itemStack)[0].value, items := swapped[..|swapped| - 1], frames := frames, isValid := true)
        else
          State() == old(State()).(frames := frames)
    {
      structureStack := structureStack[..|structureStack| - 1];
      if structureStack[|structureStack| - 1].kind == Root {
        var front := itemStack[0].value;
        itemStack := itemStack[0 := itemStack[0].(value := result)];
        result := front;
        itemStack := itemStack[..|itemStack| - 1];
        isValid := true;
      }
    }

    method VisitKey(key: string)
      modifies this
      ensures State() == old(State()).(name := key)
    {
      name := key;
    }

    /** A scalar: the result at the top level, otherwise one more item under the pending key. */
    method StoreValue(v: Json)
      requires |structureStack| > 0
      modifies this
      ensures State() == Store(old(State()), v)
    {
      if structureStack[|structureStack| - 1].kind == Root {
        result := v;
        isValid := true;
      } else {
        itemStack := itemStack + [Item(name, index, v)];
        name := "";
        index := index + 1;
      }
    }

    method VisitString(text: string, tag: SemanticTag)
      requires |structureStack| > 0
      modifies this
      ensures State() == Store(old(State()), Str(text, tag))
    {
      StoreValue(Str(text, tag));
    }

    method VisitByteString(bytes: seq<Byte>, tag: SemanticTag)
      requires |structureStack| > 0
      modifies this
      ensures State() == Store(old(State()), Bytes(bytes, tag))
    {
      StoreValue(Bytes(bytes, tag));
    }

    method VisitByteStringExt(bytes: seq<Byte>, extTag: nat)
      requires |structureStack| > 0
      modifies this
      ensures State() == Store(old(State()), ExtBytes(bytes, extTag))
    {
      StoreValue(ExtBytes(bytes, extTag));
    }

    method VisitInt64(i: int, tag: SemanticTag)
      requires |structureStack| > 0
      modifies this
      ensures State() == Store(old(State()), Int64(i, tag))
    {
      StoreValue(Int64(i, tag));
    }

    method VisitUint64(u: nat, tag: SemanticTag)
      requires |structureStack| > 0
      modifies this
      ensures State() == Store(old(State()), Uint64(u, tag))
    {
      StoreValue(Uint64(u, tag));
    }

    method VisitHalf(h: bv16, tag: SemanticTag)
      requires |structureStack| > 0
      modifies this
      ensures State() == Store(old(State()), HalfFloat(h, tag))
    {
      StoreValue(HalfFloat(h, tag));
    }

    method VisitDouble(d: Float64, tag: SemanticTag)
      requires |structureStack| > 0
      modifies this
      ensures State() == Store(old(State()), Double(d, tag))
    {
      StoreValue(Double(d, tag));
    }

    method VisitBool(b: bool, tag: SemanticTag)
      requires |structureStack| > 0
      modifies this
      ensures State() == Store(old(State()), Boolean(b, tag))
    {
      StoreValue(Boolean(b, tag));
    }

    method VisitNull(tag: SemanticTag)
      requires |structureStack| > 0
      modifies this
      ensures State() == Store(old(State()), Null(tag))
    {
      StoreValue(Null(tag));
    }
  }
}
