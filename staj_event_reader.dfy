/**
 * The pull side of the visitor protocol. An item event receiver holds the one
 * event a pull cursor currently exposes; a typed array or the shape of a
 * multi-dimensional array arrives as a single push call and is replayed to the
 * puller one event per `send_available` call. A filter view wraps a cursor and
 * skips the events a predicate rejects.
 *
 * Each method of the two classes is proved to change its fields as a function
 * on values says; the replay lemmas then state, over those functions, which
 * events a whole replay exposes and in what order.
 */
module EventReplay {
  import opened Events

  /** What the receiver still has to replay: nothing, a typed array, or the shape of a multi-dimensional array. */
  datatype ReaderState = Idle | InTypedArray | InMultiDim | InShape

  /**
   * The receiver's fields as a value: the current event, the replay state, the
   * typed array being replayed (`None` for the empty view), the shape being
   * replayed and the position within either.
   */
  datatype Receiver = Receiver(event: Event, state: ReaderState, data: Option<TypedArray>, shape: seq<nat>, index: nat)

  /** A receiver with nothing to replay, exposing a null value. */
  const Fresh: Receiver := Receiver(NullValue(NoTag), Idle, None, [], 0)

  predicate InAvailable(r: Receiver)
  {
    r.state != Idle
  }

  /**
   * The untagged scalar event that replays one typed-array element: unsigned
   * and signed integers widen to 64 bits, floats of either width travel as
   * doubles and halves keep their 16 bits (a case the receiver never reaches,
   * see `ReceivedView`). Elements carry their own type, so this is the
   * dispatch on the view's element type for a well-typed view.
   */
  function ElementEvent(e: Element): (ev: Event)
  {
    match e
    case UInt(u) => Uint64Value(u, NoTag)
    case SInt(i) => Int64Value(i, NoTag)
    case HalfBits(h) => HalfValue(h, NoTag)
    case Float(f) => DoubleValue(f, NoTag)
  }

  function ElementEvents(es: seq<Element>): (evs: seq<Event>)
    ensures |evs| == |es|
    ensures forall i :: 0 <= i < |es| ==> evs[i] == ElementEvent(es[i])
  {
    seq(|es|, i requires 0 <= i < |es| => ElementEvent(es[i]))
  }

  /** The shape entries as untagged unsigned integer events. */
  function ShapeEvents(shape: seq<nat>): (evs: seq<Event>)
    ensures |evs| == |shape|
    ensures forall i :: 0 <= i < |shape| ==> evs[i] == Uint64Value(shape[i], NoTag)
  {
    seq(|shape|, i requires 0 <= i < |shape| => Uint64Value(shape[i], NoTag))
  }

  lemma ElementEventsFirst(es: seq<Element>)
    requires |es| > 0
    ensures ElementEvents(es) == [ElementEvent(es[0])] + ElementEvents(es[1..])
  {
    assert ElementEvents(es) == [ElementEvent(es[0])] + ElementEvents(es[1..]);
  }

  lemma ShapeEventsFirst(shape: seq<nat>)
    requires |shape| > 0
    ensures ShapeEvents(shape) == [Uint64Value(shape[0], NoTag)] + ShapeEvents(shape[1..])
  {
    assert ShapeEvents(shape) == [Uint64Value(shape[0], NoTag)] + ShapeEvents(shape[1..]);
  }

  // ---------------------------------------------------------------------------
  // The receiver's operations on values.

  /**
   * The view the receiver builds from a typed array that arrives. The
   * half-float overload of `visit_typed_array` builds its view from its
   * `uint16_t` span with the same constructor call as the `uint16_t` overload,
   * so a half-float array is held as 16-bit unsigned integers, each element by
   * its bit pattern. Every other array is held as it arrives.
   */
  function ReceivedView(a: TypedArray): (v: TypedArray)
    ensures v.kind != Half && |v.elements| == |a.elements|
    ensures a.kind != Half ==> v == a
    ensures a.kind == Half && a.WellTyped() ==>
      v.kind == U16 && v.WellTyped() && forall i :: 0 <= i < |a.elements| ==> v.elements[i] == UInt(a.elements[i].h as nat)
  {
    if a.kind == Half then TypedArray(U16, seq(|a.elements|, i requires 0 <= i < |a.elements| => HalfAsUInt(a.elements[i])))
    else a
  }

  /** A half float read through a `uint16_t` pointer: its bit pattern as an unsigned integer. */
  function HalfAsUInt(e: Element): Element
  {
    if e.HalfBits? then UInt(e.h as nat) else e
  }

  /** The receiver starts replaying view `v`: replay starts at element 0, and the puller first sees an array start. */
  function HoldView(r: Receiver, v: TypedArray, tag: SemanticTag): (t: Receiver)
    ensures InAvailable(t) && t.data == Some(v) && t.index == 0
    ensures t.event == BeginArray(None, tag) && t.shape == r.shape
  {
    r.(state := InTypedArray, data := Some(v), index := 0, event := BeginArray(None, tag))
  }

  /** A typed array arrives: the receiver holds its received view, as `HoldView` says. */
  function StartTypedArray(r: Receiver, a: TypedArray, tag: SemanticTag): (t: Receiver)
    ensures InAvailable(t) && t.data == Some(ReceivedView(a)) && t.data.value.kind != Half && t.index == 0
    ensures t.event == BeginArray(None, tag) && t.shape == r.shape
  {
    HoldView(r, ReceivedView(a), tag)
  }

  /**
   * A multi-dimensional array begins: the shape is stored and the puller first
   * sees the start of a two-element array (the shape, then the data).
   */
  function StartMultiDim(r: Receiver, shape: seq<nat>, tag: SemanticTag): (t: Receiver)
    ensures InAvailable(t) && t.shape == shape && t.event == BeginArray(Some(2), tag)
    ensures t.data == r.data && t.index == r.index
  {
    r.(state := InMultiDim, shape := shape, event := BeginArray(Some(2), tag))
  }

  /** One step of a typed-array replay: the next element, or the array's end and back to idle. */
  function TypedArrayStep(r: Receiver): (t: Receiver)
  {
    if r.data.None? then r
    else if r.index < |r.data.value.elements| then
      r.(event := ElementEvent(r.data.value.elements[r.index]), index := r.index + 1)
    else
      r.(event := EndArray, state := Idle, data := None, index := 0)
  }

  /** One step of a shape replay: its array start, the next entry, or its end and back to idle. */
  function MultiDimStep(r: Receiver): (t: Receiver)
  {
    if |r.shape| == 0 then r
    else if r.state == InMultiDim then
      r.(event := BeginArray(Some(|r.shape|), NoTag), state := InShape)
    else if r.index < |r.shape| then
      r.(event := Uint64Value(r.shape[r.index], NoTag), index := r.index + 1)
    else
      r.(state := Idle, event := EndArray, shape := [], index := 0)
  }

  /** `send_available`: the step the replay state calls for. */
  function SendStep(r: Receiver): (t: Receiver)
    ensures r.state == Idle ==> t == r
    ensures r.state == InTypedArray ==> t == TypedArrayStep(r)
    ensures (r.state == InMultiDim || r.state == InShape) ==> t == MultiDimStep(r)
  {
    match r.state
    case InTypedArray => TypedArrayStep(r)
    case InMultiDim => MultiDimStep(r)
    case InShape => MultiDimStep(r)
    case Idle => r
  }

  /** `n` calls of `send_available`: the receiver afterwards and the event exposed after each call. */
  function Pump(r: Receiver, n: nat): (res: (Receiver, seq<Event>))
    ensures |res.1| == n
    decreases n
  {
    if n == 0 then (r, [])
    else
      var r1 := SendStep(r);
      var rest := Pump(r1, n - 1);
      (rest.0, [r1.event] + rest.1)
  }

  /** The state `dump` leaves: a typed array in progress is abandoned. */
  function AfterDump(r: Receiver): (t: Receiver)
    ensures r.data.Some? ==> !InAvailable(t) && t.data.None? && t.index == 0
    ensures r.data.None? ==> t == r
    ensures t.event == r.event && t.shape == r.shape
  {
    if r.data.Some? then r.(state := Idle, data := None, index := 0) else r
  }

  /**
   * What `dump` forwards: before any element has been replayed, the whole typed
   * array in one untagged call; once some have, the current event and then the
   * elements from the replay position to the end; with no typed array, just
   * the current event.
   */
  function DumpEvents(r: Receiver): (evs: seq<Event>)
  {
    if r.data.None? then [r.event]
    else if r.index == 0 then [TypedArrayValue(r.data.value, NoTag)]
    else if r.index < |r.data.value.elements| then [r.event] + ElementEvents(r.data.value.elements[r.index..])
    else [r.event]
  }

  /**
   * `dump` as include/jsoncons/staj_event_reader.hpp writes it: both of its
   * dispatches on the element type lack a case for half floats, so a
   * half-float view would forward nothing of its own. The receiver never holds
   * one (`ReceivedView`), so on every view it holds this is `DumpEvents`.
   */
  function DumpEventsAsWritten(r: Receiver): (evs: seq<Event>)
    ensures r.data.None? || r.data.value.kind != Half ==> evs == DumpEvents(r)
  {
    if r.data.None? then [r.event]
    else if r.data.value.kind == Half then (if r.index == 0 then [] else [r.event])
    else DumpEvents(r)
  }

  // ---------------------------------------------------------------------------
  // Replays.

  /** From element `i` on, a typed-array replay exposes the remaining elements in order, then the array's end, and goes idle. */
  lemma {:induction false} TypedArrayTail(r: Receiver, a: TypedArray, i: nat)
    requires r.state == InTypedArray && r.data == Some(a) && r.index == i <= |a.elements|
    ensures Pump(r, |a.elements| - i + 1) == (r.(event := EndArray, state := Idle, data := None, index := 0), ElementEvents(a.elements[i..]) + [EndArray])
    decreases |a.elements| - i
  {
    if i < |a.elements| {
      var r1 := SendStep(r);
      assert r1 == r.(event := ElementEvent(a.elements[i]), index := i + 1);
      TypedArrayTail(r1, a, i + 1);
      var n := |a.elements| - i;
      var rest := Pump(r1, n);
      assert Pump(r, n + 1) == (rest.0, [r1.event] + rest.1);
      ElementEventsFirst(a.elements[i..]);
      assert a.elements[i..][1..] == a.elements[i + 1..];
      assert [r1.event] + (ElementEvents(a.elements[i + 1..]) + [EndArray]) == ElementEvents(a.elements[i..]) + [EndArray];
    } else {
      assert a.elements[i..] == [];
      var r1 := SendStep(r);
      assert r1 == r.(event := EndArray, state := Idle, data := None, index := 0);
      assert Pump(r, 1) == (Pump(r1, 0).0, [r1.event] + Pump(r1, 0).1);
      assert [r1.event] + [] == [EndArray];
      assert ElementEvents(a.elements[i..]) + [EndArray] == [EndArray];
    }
  }

  /**
   * A held view of n elements is pulled as an array start, the n elements in
   * order and the array's end, taking n + 1 calls of `send_available`; the
   * receiver is then idle with no typed array.
   */
  lemma ViewReplay(r: Receiver, v: TypedArray, tag: SemanticTag)
    ensures var s := HoldView(r, v, tag);
      var res := Pump(s, |v.elements| + 1);
      [s.event] + res.1 == [BeginArray(None, tag)] + ElementEvents(v.elements) + [EndArray] &&
      res.0 == Fresh.(event := EndArray, shape := r.shape)
  {
    var s := HoldView(r, v, tag);
    TypedArrayTail(s, v, 0);
    assert v.elements[0..] == v.elements;
  }

  /**
   * A typed array of n elements is pulled as an array start, the n elements of
   * its received view in order and the array's end, taking n + 1 calls of
   * `send_available` after it arrives; the receiver is then idle with no typed
   * array. An array of any type but half floats replays its own elements.
   */
  lemma TypedArrayReplay(r: Receiver, a: TypedArray, tag: SemanticTag)
    ensures var s := StartTypedArray(r, a, tag);
      var res := Pump(s, |a.elements| + 1);
      [s.event] + res.1 == [BeginArray(None, tag)] + ElementEvents(ReceivedView(a).elements) + [EndArray] &&
      (a.kind != Half ==> [s.event] + res.1 == [BeginArray(None, tag)] + ElementEvents(a.elements) + [EndArray]) &&
      res.0 == Fresh.(event := EndArray, shape := r.shape)
  {
    ViewReplay(r, ReceivedView(a), tag);
  }

  /**
   * As written, a half-float array is replayed as unsigned integers: every
   * element reaches the puller as the untagged `uint64` of its bit pattern, and
   * no replayed event is a half float, so the half-float case of
   * `advance_typed_array` is never taken.
   */
  lemma HalfArrayReplaysAsUint16(r: Receiver, a: TypedArray, tag: SemanticTag)
    requires a.kind == Half && a.WellTyped()
    ensures var s := StartTypedArray(r, a, tag);
      var res := Pump(s, |a.elements| + 1);
      |res.1| == |a.elements| + 1 && res.1[|a.elements|] == EndArray &&
      (forall i :: 0 <= i < |a.elements| ==> res.1[i] == Uint64Value(a.elements[i].h as nat, NoTag)) &&
      (forall i :: 0 <= i < |res.1| ==> !res.1[i].HalfValue?)
  {
    var s := StartTypedArray(r, a, tag);
    var res := Pump(s, |a.elements| + 1);
    TypedArrayReplay(r, a, tag);
    var evs := ElementEvents(ReceivedView(a).elements);
    assert [s.event] + res.1 == [BeginArray(None, tag)] + evs + [EndArray];
    assert res.1 == evs + [EndArray] by {
      assert ([s.event] + res.1)[1..] == res.1;
      assert ([BeginArray(None, tag)] + evs + [EndArray])[1..] == evs + [EndArray];
    }
  }

  /**
   * The corrected replay: a receiver that keeps the half-float type of the
   * view replays each element of a half-float array as a half-float event
   * with its bits, and `DumpEvents`, with its half-float case, forwards such
   * an array whole before any element is pulled.
   */
  lemma HalfArrayReplaysAsHalves(r: Receiver, a: TypedArray, tag: SemanticTag)
    requires a.kind == Half && a.WellTyped()
    ensures var s := HoldView(r, a, tag);
      var res := Pump(s, |a.elements| + 1);
      |res.1| == |a.elements| + 1 && res.1[|a.elements|] == EndArray &&
      (forall i :: 0 <= i < |a.elements| ==> res.1[i] == HalfValue(a.elements[i].h, NoTag)) &&
      DumpEvents(s) == [TypedArrayValue(a, NoTag)]
  {
    var s := HoldView(r, a, tag);
    var res := Pump(s, |a.elements| + 1);
    ViewReplay(r, a, tag);
    var evs := ElementEvents(a.elements);
    assert [s.event] + res.1 == [BeginArray(None, tag)] + evs + [EndArray];
    assert res.1 == evs + [EndArray] by {
      assert ([s.event] + res.1)[1..] == res.1;
      assert ([BeginArray(None, tag)] + evs + [EndArray])[1..] == evs + [EndArray];
    }
  }

  /** From entry `i` on, a shape replay exposes the remaining entries in order, then the shape's end, and goes idle. */
  lemma {:induction false} ShapeTail(r: Receiver, i: nat)
    requires r.state == InShape && 0 < |r.shape| && r.index == i <= |r.shape|
    ensures Pump(r, |r.shape| - i + 1) == (r.(state := Idle, event := EndArray, shape := [], index := 0), ShapeEvents(r.shape[i..]) + [EndArray])
    decreases |r.shape| - i
  {
    if i < |r.shape| {
      var r1 := SendStep(r);
      assert r1 == r.(event := Uint64Value(r.shape[i], NoTag), index := i + 1);
      ShapeTail(r1, i + 1);
      var n := |r.shape| - i;
      var rest := Pump(r1, n);
      assert Pump(r, n + 1) == (rest.0, [r1.event] + rest.1);
      ShapeEventsFirst(r.shape[i..]);
      assert r.shape[i..][1..] == r.shape[i + 1..];
      assert [r1.event] + (ShapeEvents(r.shape[i + 1..]) + [EndArray]) == ShapeEvents(r.shape[i..]) + [EndArray];
    } else {
      assert r.shape[i..] == [];
      var r1 := SendStep(r);
      assert r1 == r.(state := Idle, event := EndArray, shape := [], index := 0);
      assert Pump(r, 1) == (Pump(r1, 0).0, [r1.event] + Pump(r1, 0).1);
      assert [r1.event] + [] == [EndArray];
      assert ShapeEvents(r.shape[i..]) + [EndArray] == [EndArray];
    }
  }

  /**
   * A non-empty shape of n entries is pulled as the start of a two-element
   * array, the start of an n-element array, the n entries in order and that
   * array's end, taking n + 2 calls of `send_available`; the receiver is then
   * idle with no shape, ready for the data that follows.
   */
  lemma MultiDimReplay(r: Receiver, shape: seq<nat>, tag: SemanticTag)
    requires |shape| > 0 && r.index == 0
    ensures var s := StartMultiDim(r, shape, tag);
      var res := Pump(s, |shape| + 2);
      [s.event] + res.1 == [BeginArray(Some(2), tag), BeginArray(Some(|shape|), NoTag)] + ShapeEvents(shape) + [EndArray] &&
      res.0 == r.(event := EndArray, state := Idle, shape := [], index := 0)
  {
    var s := StartMultiDim(r, shape, tag);
    var s1 := SendStep(s);
    assert s1 == s.(event := BeginArray(Some(|shape|), NoTag), state := InShape);
    ShapeTail(s1, 0);
    assert s1.shape[0..] == shape;
    PumpFirst(s, |shape| + 1);
    PrependTwo(s.event, s1.event, ShapeEvents(shape), EndArray);
  }

  /** The first of n + 1 calls: the receiver steps once, exposes that event, and the other n calls follow. */
  lemma PumpFirst(r: Receiver, n: nat)
    ensures var r1 := SendStep(r);
      Pump(r, n + 1) == (Pump(r1, n).0, [r1.event] + Pump(r1, n).1)
  {
  }

  lemma PrependTwo<T>(a: T, b: T, xs: seq<T>, e: T)
    ensures [a] + ([b] + (xs + [e])) == [a, b] + xs + [e]
  {
    assert [a] + ([b] + (xs + [e])) == [a, b] + xs + [e];
  }

  /** An empty shape has nothing to replay: `send_available` changes nothing, and the receiver stays in the multi-dimensional state. */
  lemma EmptyShapeStalls(r: Receiver, tag: SemanticTag)
    ensures var s := StartMultiDim(r, [], tag);
      SendStep(s) == s && InAvailable(SendStep(s))
  {
  }

  /**
   * `dump` after the first k elements of a typed array have been pulled
   * forwards the k-th element again, then exactly the elements not yet pulled:
   * the elements pulled plus those forwarded are the whole received view, and
   * no array end follows. Before any element is pulled, it forwards the whole
   * view as one typed-array event. This holds of `dump` as written, which
   * agrees with `DumpEvents` on every view the receiver holds.
   */
  lemma DumpCompletesReplay(r: Receiver, a: TypedArray, tag: SemanticTag, k: nat)
    requires k <= |a.elements|
    ensures var s := StartTypedArray(r, a, tag);
      var res := Pump(s, k);
      var dumped := DumpEventsAsWritten(res.0);
      (k == 0 ==> dumped == [TypedArrayValue(ReceivedView(a), NoTag)]) &&
      (0 < k ==> |dumped| > 0 && dumped[0] == res.1[k - 1] && res.1 + dumped[1..] == ElementEvents(ReceivedView(a).elements)) &&
      !InAvailable(AfterDump(res.0))
  {
    DumpCompletesView(r, ReceivedView(a), tag, k);
  }

  /** `DumpCompletesReplay` for any held view, with `DumpEvents`. */
  lemma DumpCompletesView(r: Receiver, v: TypedArray, tag: SemanticTag, k: nat)
    requires k <= |v.elements|
    ensures var s := HoldView(r, v, tag);
      var res := Pump(s, k);
      var dumped := DumpEvents(res.0);
      res.0.data == Some(v) &&
      (k == 0 ==> dumped == [TypedArrayValue(v, NoTag)]) &&
      (0 < k ==> dumped[0] == res.1[k - 1] && res.1 + dumped[1..] == ElementEvents(v.elements)) &&
      !InAvailable(AfterDump(res.0))
  {
    var s := HoldView(r, v, tag);
    PumpElements(s, v, k);
    if 0 < k {
      ElementEventsSplit(v.elements, k);
    }
  }

  /** The element events of `es`, split after the first `k` of them. */
  lemma ElementEventsSplit(es: seq<Element>, k: nat)
    requires 0 < k <= |es|
    ensures ElementEvents(es) == ElementEvents(es[..k]) + (if k < |es| then ElementEvents(es[k..]) else [])
  {
    var rest := if k < |es| then ElementEvents(es[k..]) else [];
    assert ElementEvents(es) == ElementEvents(es[..k]) + rest;
  }

  /** After k steps of a typed-array replay (k at most its length), the elements before k have been exposed, the k-th last. */
  lemma {:induction false} PumpElements(s: Receiver, a: TypedArray, k: nat)
    requires s.state == InTypedArray && s.data == Some(a) && s.index == 0 && k <= |a.elements|
    ensures var res := Pump(s, k);
      res.0 == s.(index := k, event := if k == 0 then s.event else ElementEvent(a.elements[k - 1])) &&
      res.1 == ElementEvents(a.elements[..k])
  {
    if k > 0 {
      PumpElements(s, a, k - 1);
      PumpSplit(s, k - 1);
      var mid := Pump(s, k - 1).0;
      assert SendStep(mid) == mid.(event := ElementEvent(a.elements[k - 1]), index := k);
      assert ElementEvents(a.elements[..k]) == ElementEvents(a.elements[..k - 1]) + [ElementEvent(a.elements[k - 1])];
    }
  }

  /** One more call after `n`: the receiver steps once more and exposes one more event. */
  lemma {:induction false} PumpSplit(r: Receiver, n: nat)
    ensures var res := Pump(r, n);
      var t := SendStep(res.0);
      Pump(r, n + 1) == (t, res.1 + [t.event])
    decreases n
  {
    var r1 := SendStep(r);
    if n > 0 {
      PumpSplit(r1, n - 1);
      var inner := Pump(r1, n - 1);
      assert [r1.event] + (inner.1 + [SendStep(inner.0).event]) == ([r1.event] + inner.1) + [SendStep(inner.0).event];
    } else {
      assert Pump(r, 1) == (Pump(r1, 0).0, [r1.event] + Pump(r1, 0).1);
      assert Pump(r, 0) == (r, []);
      assert [] + [r1.event] == [r1.event] + [];
    }
  }

  // ---------------------------------------------------------------------------
  // The receiver as the cursor holds it.

  /** An item event: one that a single push call turns straight into the current event. */
  predicate IsItemEvent(e: Event)
  {
    !(e.Key? || e.TypedArrayValue? || e.BeginMultiDim? || e.EndMultiDim? || e.Flush?)
  }

  /**
   * The receiver a pull cursor feeds: its fields are updated in place by the
   * push calls it receives and by the replay steps the cursor asks for.
   */
  class ItemEventReceiver {
    var event: Event
    var state: ReaderState
    var data: Option<TypedArray>
    var shape: seq<nat>
    var index: nat

    ghost function Snapshot(): Receiver
      reads this
    {
      Receiver(event, state, data, shape, index)
    }

    constructor()
      ensures Snapshot() == Fresh
    {
      event := NullValue(NoTag);
      state := Idle;
      data := None;
      shape := [];
      index := 0;
    }

    method Reset()
      modifies this
      ensures Snapshot() == Fresh && !InAvailable()
    {
      event := NullValue(NoTag);
      state := Idle;
      data := None;
      shape := [];
      index := 0;
    }

    /** Whether a replay is in progress. */
    predicate InAvailable()
      reads this
    {
      state != Idle
    }

    method SendAvailable()
      modifies this
      ensures Snapshot() == SendStep(old(Snapshot()))
    {
      match state {
        case InTypedArray =>
          AdvanceTypedArray();
        case InMultiDim =>
          AdvanceMultiDim();
        case InShape =>
          AdvanceMultiDim();
        case Idle =>
      }
    }

    method AdvanceTypedArray()
      modifies this
      ensures Snapshot() == TypedArrayStep(old(Snapshot()))
    {
      if data.Some? {
        if index < |data.value.elements| {
          Visit(ElementEvent(data.value.elements[index]));
          index := index + 1;
        } else {
          Visit(EndArray);
          state := Idle;
          data := None;
          index := 0;
        }
      }
    }

    method AdvanceMultiDim()
      modifies this
      ensures Snapshot() == MultiDimStep(old(Snapshot()))
    {
      if |shape| != 0 {
        if state == InMultiDim {
          Visit(BeginArray(Some(|shape|), NoTag));
          state := InShape;
        } else if index < |shape| {
          Visit(Uint64Value(shape[index], NoTag));
          index := index + 1;
        } else {
          state := Idle;
          Visit(EndArray);
          shape := [];
          index := 0;
        }
      }
    }

    /**
     * Forwards what is left of the current item to another visitor, returned
     * here as the calls it receives, and abandons a typed-array replay.
     */
    method Dump() returns (sent: seq<Event>)
      modifies this
      ensures sent == DumpEventsAsWritten(old(Snapshot()))
      ensures Snapshot() == AfterDump(old(Snapshot()))
    {
      if data.Some? {
        if index != 0 {
          sent := [event];
          if data.value.kind != Half {
            var elements := data.value.elements;
            var i := index;
            while i < |elements|
              invariant index <= i
              invariant index < |elements| ==> i <= |elements| && sent == [event] + ElementEvents(elements[index..i])
              invariant index >= |elements| ==> sent == [event]
            {
              assert elements[index..i + 1] == elements[index..i] + [elements[i]];
              sent := sent + [ElementEvent(elements[i])];
              i := i + 1;
            }
            if index < |elements| {
              assert elements[index..i] == elements[index..];
            }
          }
          state := Idle;
          data := None;
          index := 0;
        } else {
          sent := if data.value.kind != Half then [TypedArrayValue(data.value, NoTag)] else [];
          state := Idle;
          data := None;
        }
      } else {
        sent := [event];
      }
    }

    /** A push call that is an item event becomes the current event; nothing else changes. */
    method Visit(e: Event)
      requires IsItemEvent(e)
      modifies this
      ensures Snapshot() == old(Snapshot()).(event := e)
    {
      event := e;
    }

    method VisitTypedArray(a: TypedArray, tag: SemanticTag)
      modifies this
      ensures Snapshot() == StartTypedArray(old(Snapshot()), a, tag) && InAvailable()
    {
      state := InTypedArray;
      data := Some(ReceivedView(a));
      index := 0;
      Visit(BeginArray(None, tag));
    }

    method VisitBeginMultiDim(s: seq<nat>, tag: SemanticTag)
      modifies this
      ensures Snapshot() == StartMultiDim(old(Snapshot()), s, tag) && InAvailable()
    {
      state := InMultiDim;
      shape := s;
      Visit(BeginArray(Some(2), tag));
    }

    /** The end of a multi-dimensional array is pulled as the end of its two-element array. */
    method VisitEndMultiDim()
      modifies this
      ensures Snapshot() == old(Snapshot()).(event := EndArray)
    {
      Visit(EndArray);
    }
  }

  // ---------------------------------------------------------------------------
  // Reading a vector.

  datatype ConvErrc = NotVector

  /**
   * The check a reader makes before reading a vector: the current event must
   * start an array or be a byte string (with or without an extension tag).
   */
  function ArrayExpected(current: Event): (ec: Option<ConvErrc>)
    ensures ec.None? <==> current.BeginArray? || current.ByteStringValue? || current.ByteStringExtValue?
    ensures ec.Some? ==> ec.value == NotVector
  {
    if current.BeginArray? || current.ByteStringValue? || current.ByteStringExtValue? then None else Some(NotVector)
  }

  /**
   * A typed array and a multi-dimensional array both present themselves as
   * a vector; every element a replay then exposes is refused as one.
   */
  lemma ArrayExpectedOnReplay(r: Receiver, a: TypedArray, shape: seq<nat>, tag: SemanticTag)
    ensures ArrayExpected(StartTypedArray(r, a, tag).event) == None
    ensures ArrayExpected(StartMultiDim(r, shape, tag).event) == None
    ensures forall i :: 0 <= i < |a.elements| ==> ArrayExpected(ElementEvents(ReceivedView(a).elements)[i]) == Some(NotVector)
  {
  }

  // ---------------------------------------------------------------------------
  // The filter view.

  /** The cursor moving to its next event; at the end it stays there. */
  function Advance(pos: nat, n: nat): (p: nat)
    ensures pos < n ==> p == pos + 1
    ensures pos >= n ==> p == pos
  {
    if pos < n then pos + 1 else pos
  }

  /**
   * Where a scan from `from` stops: the first position that is past the last
   * event, whose event the predicate accepts, or that is in `stops`.
   */
  function Scan(events: seq<Event>, pred: (Event, nat) -> bool, stops: set<nat>, from: nat): (p: nat)
    requires from <= |events|
    ensures from <= p <= |events|
    ensures p == |events| || pred(events[p], p) || p in stops
    ensures forall k :: from <= k < p ==> !pred(events[k], k) && k !in stops
    decreases |events| - from
  {
    if from == |events| || pred(events[from], from) || from in stops then from
    else Scan(events, pred, stops, from + 1)
  }

  /**
   * A view over a cursor that delivers `events` in order, exposing only the
   * events `pred` accepts. The predicate receives each event with its
   * position, which stands for the cursor's context. A cursor's `next` that
   * reports errors reports one on arriving at a position in `faults`.
   */
  class FilterView {
    const events: seq<Event>
    const pred: (Event, nat) -> bool
    const faults: set<nat>
    var pos: nat

    predicate Done()
      reads this
    {
      pos >= |events|
    }

    function Current(): Event
      reads this
      requires !Done()
    {
      events[pos]
    }

    /** Wraps a cursor and moves it to the first event the predicate accepts. */
    constructor(events: seq<Event>, pred: (Event, nat) -> bool, faults: set<nat>)
      ensures this.events == events && this.pred == pred && this.faults == faults
      ensures pos == Scan(events, pred, {}, 0)
      ensures Done() || pred(Current(), pos)
    {
      this.events := events;
      this.pred := pred;
      this.faults := faults;
      pos := 0;
      new;
      while !Done() && !pred(Current(), pos)
        invariant pos <= |events|
        decreases |events| - pos
        invariant Scan(events, pred, {}, pos) == Scan(events, pred, {}, 0)
      {
        CursorNext();
      }
    }

    /** The wrapped cursor's `next`. */
    method CursorNext()
      modifies this
      ensures pos == Advance(old(pos), |events|)
    {
      if pos < |events| {
        pos := pos + 1;
      }
    }

    /** The wrapped cursor's `next` that reports errors. */
    method CursorNextChecked() returns (ec: bool)
      modifies this
      ensures pos == Advance(old(pos), |events|) && ec == (pos in faults)
    {
      CursorNext();
      ec := pos in faults;
    }

    /** Moves past the current event to the next one the predicate accepts. */
    method Next()
      requires pos <= |events|
      modifies this
      ensures pos == Scan(events, pred, {}, Advance(old(pos), |events|))
      ensures Done() || pred(Current(), pos)
    {
      CursorNext();
      ghost var start := pos;
      while !Done() && !pred(Current(), pos)
        invariant start <= pos <= |events|
        decreases |events| - pos
        invariant Scan(events, pred, {}, pos) == Scan(events, pred, {}, start)
      {
        CursorNext();
      }
    }

    /** As `Next`, but also stopping at the first error the cursor reports. */
    method NextChecked() returns (ec: bool)
      requires pos <= |events|
      modifies this
      ensures pos == Scan(events, pred, faults, Advance(old(pos), |events|)) && ec == (pos in faults)
      ensures Done() || pred(Current(), pos) || ec
    {
      ec := CursorNextChecked();
      ghost var start := pos;
      while !Done() && !pred(Current(), pos) && !ec
        invariant start <= pos <= |events| && ec == (pos in faults)
        decreases |events| - pos
        invariant Scan(events, pred, faults, pos) == Scan(events, pred, faults, start)
      {
        ec := CursorNextChecked();
      }
    }
  }
}
