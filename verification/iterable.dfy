/** The sandbox `Iterable` trait: a list of attached elements and PHP's
    internal array pointer over it. Only appends ever happen, so the keys are
    the positions 0, 1, 2, … */
module Iteration {
  import opened Php

  /** The elements and the pointer position; a position at the end means the
      pointer is past the last element. */
  datatype Cursor = Cursor(elements: seq<Value>, pos: nat)

  function NewCursor(): (r: Cursor)
    ensures r.elements == [] && r.pos == 0
  {
    Cursor([], 0)
  }

  /** `attach`: appends under the next integer key; the pointer stays. */
  function Attach(c: Cursor, v: Value): (r: Cursor)
    ensures r.elements == c.elements + [v]
    ensures r.pos == c.pos
    ensures Key(r.(pos := |c.elements|)) == Int(|c.elements|)
    ensures Current(r.(pos := |c.elements|)) == v
  {
    c.(elements := c.elements + [v])
  }

  /** `rewind` (`reset`): back to the first element. */
  function Rewind(c: Cursor): (r: Cursor)
    ensures r.elements == c.elements && r.pos == 0
    ensures |c.elements| > 0 ==> Current(r) == c.elements[0]
    ensures |c.elements| == 0 ==> !Valid(r)
  {
    c.(pos := 0)
  }

  /** `current`: the element under the pointer, or `false` past the end. */
  function Current(c: Cursor): (r: Value)
    ensures c.pos < |c.elements| ==> r == c.elements[c.pos]
    ensures c.pos >= |c.elements| ==> r == Bool(false)
  {
    if c.pos < |c.elements| then c.elements[c.pos] else Bool(false)
  }

  /** `valid`: `false !== current()`, so an element that is `false` looks
      like the end. */
  function Valid(c: Cursor): (r: bool)
    ensures r <==> c.pos < |c.elements| && c.elements[c.pos] != Bool(false)
  {
    Current(c) != Bool(false)
  }

  /** `next`: one position further; past the end it stays past the end. */
  function Next(c: Cursor): (r: Cursor)
    ensures r.elements == c.elements
    ensures c.pos < |c.elements| ==> r.pos == c.pos + 1
    ensures c.pos >= |c.elements| ==> r.pos == c.pos
  {
    if c.pos < |c.elements| then c.(pos := c.pos + 1) else c
  }

  /** `key`: the key under the pointer, or null past the end. */
  function Key(c: Cursor): (r: Value)
    ensures c.pos < |c.elements| ==> r == Int(c.pos)
    ensures c.pos >= |c.elements| ==> r == Null
  {
    if c.pos < |c.elements| then Int(c.pos) else Null
  }

  /** The position of the first `false` element, or the length. */
  function FirstFalse(s: seq<Value>): (n: nat)
    ensures n <= |s|
    ensures n < |s| ==> s[n] == Bool(false)
    ensures forall i :: 0 <= i < n ==> s[i] != Bool(false)
  {
    if |s| == 0 then 0
    else if s[0] == Bool(false) then 0
    else 1 + FirstFalse(s[1..])
  }

  /** A `foreach` over the cursor: rewind, then collect `current()` while
      `valid()`, calling `next()` after each. It stops at the first `false`
      element. */
  method Collect(c: Cursor) returns (seen: seq<Value>, keys: seq<Value>)
    ensures seen == c.elements[..FirstFalse(c.elements)]
    ensures (forall i :: 0 <= i < |c.elements| ==> c.elements[i] != Bool(false)) ==> seen == c.elements
    ensures |keys| == |seen|
    ensures forall i :: 0 <= i < |keys| ==> keys[i] == Int(i)
  {
    var cur := Rewind(c);
    seen := [];
    keys := [];
    while Valid(cur)
      invariant cur.elements == c.elements
      invariant cur.pos <= FirstFalse(c.elements)
      invariant seen == c.elements[..cur.pos]
      invariant |keys| == cur.pos
      invariant forall i :: 0 <= i < |keys| ==> keys[i] == Int(i)
      decreases |c.elements| - cur.pos
    {
      seen := seen + [Current(cur)];
      keys := keys + [Key(cur)];
      cur := Next(cur);
    }
  }
}
