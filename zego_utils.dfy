/**
 * The null-defaulting and list-to-array helpers the Android plugin uses on
 * values decoded from Flutter method-channel arguments. A Java reference that
 * may be null is an `Option`; a boxed number is an Integer or a Long, the two
 * integer kinds the channel codec produces.
 */
module ZegoUtils {
  import opened Ints

  datatype Option<T> = None | Some(value: T)

  /** A boxed java.lang.Number of one of the integer kinds. */
  datatype Number = Integer(intVal: int32) | Long(longVal: int64)

  /** boolValue: a null Boolean reads as false. */
  function BoolValue(number: Option<bool>): (r: bool)
    ensures r <==> number == Some(true)
  {
    number != None && number.value
  }

  /** Number.intValue() of a non-null boxed number: `(int)` of a Long. */
  function NumberIntValue(n: Number): (r: int32)
  {
    match n
    case Integer(v) => v
    case Long(v) => Wrap32(v)
  }

  /** Number.longValue() of a non-null boxed number: a widened Integer. */
  function NumberLongValue(n: Number): (r: int64)
  {
    match n
    case Integer(v) => v
    case Long(v) => v
  }

  /** intValue: a null Number reads as 0. */
  function IntValue(number: Option<Number>): (r: int32)
    ensures number == None ==> r == 0
    ensures number.Some? && number.value.Integer? ==> r == number.value.intVal
  {
    if number != None then NumberIntValue(number.value) else 0
  }

  /** longValue: a null Number reads as 0. */
  function LongValue(number: Option<Number>): (r: int64)
    ensures number == None ==> r == 0
    ensures number.Some? && number.value.Long? ==> r == number.value.longVal
    ensures number.Some? && number.value.Integer? ==> r == number.value.intVal
  {
    if number != None then NumberLongValue(number.value) else 0
  }

  /**
   * intValue is longValue narrowed to 32 bits: the two agree whenever the
   * value fits an int, and otherwise keep the same low 32 bits.
   */
  lemma IntValueNarrowsLongValue(number: Option<Number>)
    ensures (IntValue(number) - LongValue(number)) % 0x1_0000_0000 == 0
    ensures -0x8000_0000 <= LongValue(number) < 0x8000_0000 ==> IntValue(number) == LongValue(number)
  {
    if number.Some? && number.value.Long? {
      var v := number.value.longVal;
      assert IntValue(number) == Wrap32(v);
    }
  }

  /** A java.util.ArrayList<Integer>; a null element is None. */
  class ArrayList {
    var elements: seq<Option<int32>>

    constructor (elements: seq<Option<int32>>)
      ensures this.elements == elements
    {
      this.elements := elements;
    }

    function Size(): (n: nat)
      reads this
    {
      |elements|
    }

    method Iterator() returns (it: ListIterator)
      ensures fresh(it)
      ensures it.list == this && it.cursor == 0
    {
      it := new ListIterator(this);
    }
  }

  /** The list's iterator: a cursor that only reads the list. */
  class ListIterator {
    const list: ArrayList
    var cursor: nat

    constructor (list: ArrayList)
      ensures this.list == list && cursor == 0
    {
      this.list := list;
      cursor := 0;
    }

    method Next() returns (e: Option<int32>)
      requires cursor < |list.elements|
      modifies this
      ensures cursor == old(cursor) + 1
      ensures e == list.elements[old(cursor)]
    {
      e := list.elements[cursor];
      cursor := cursor + 1;
    }
  }

  /**
   * intArrayValue: a fresh int[] of the list's size, filled in list order
   * through the list's iterator; the list itself is left as it was.
   */
  method IntArrayValue(integerArrayList: ArrayList) returns (ret: array<int32>)
    requires forall i :: 0 <= i < |integerArrayList.elements| ==> integerArrayList.elements[i].Some?
    ensures fresh(ret)
    ensures ret.Length == integerArrayList.Size()
    ensures forall i :: 0 <= i < ret.Length ==> ret[i] == integerArrayList.elements[i].value
    ensures unchanged(integerArrayList)
  {
    ret := new int32[integerArrayList.Size()](_ => 0);
    var it := integerArrayList.Iterator();
    for i := 0 to ret.Length
      invariant it.list == integerArrayList && it.cursor == i
      invariant forall k :: 0 <= k < i ==> ret[k] == integerArrayList.elements[k].value
    {
      var e := it.Next();
      ret[i] := e.value;
    }
  }
}
