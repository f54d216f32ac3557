/** Edge detection on mouse buttons (`Button` and `Mouse` in src/gfx.hpp;
    src/graphics/core.hpp carries an identical copy). A button remembers
    whether it was down at the previous and at the current update; a press
    is an up-to-down edge and a release a down-to-up edge. */
module Input {

  /** The value of GLFW's `GLFW_PRESS` action. */
  const GLFW_PRESS: int := 1

  class Button {
    var prev: bool
    var curr: bool

    constructor(prev: bool, curr: bool)
      ensures this.prev == prev && this.curr == curr
    {
      this.prev := prev;
      this.curr := curr;
    }

    /** `update(state)`: the current reading becomes the previous one, and
        the button is down now exactly when `state` is `GLFW_PRESS`. */
    method Update(state: int)
      modifies this
      ensures prev == old(curr) && curr == (state == GLFW_PRESS)
      ensures old(curr) == curr ==> !Pressed() && !Released()
    {
      prev := curr;
      curr := state == GLFW_PRESS;
    }

    /** An up-to-down edge: the button is down now and was not before. */
    predicate Pressed()
      reads this
    {
      curr && !prev
    }

    /** A down-to-up edge. */
    predicate Released()
      reads this
    {
      !curr && prev
    }
  }

  /** One button never reports a press and a release at once: each is an
      edge in the opposite direction. A reported edge means the two readings
      differ, and readings that differ always report the one edge they make. */
  lemma EdgesExclusive(b: Button)
    ensures !(b.Pressed() && b.Released())
    ensures b.Pressed() || b.Released() <==> b.prev != b.curr
    ensures b.Pressed() ==> b.curr && !b.Released()
    ensures b.Released() ==> !b.curr && !b.Pressed()
  {
  }

  /** Two updates with the same state leave a button steady: the second
      reports neither a press nor a release, whatever the first did. */
  method UpdateTwiceSettles(b: Button, state: int)
    modifies b
    ensures b.prev == b.curr == (state == GLFW_PRESS)
    ensures !b.Pressed() && !b.Released()
  {
    b.Update(state);
    b.Update(state);
  }

  /** A mouse with three independent buttons (the cursor position is left
      out). The source holds the buttons by value, so they are three distinct
      objects here. */
  class Mouse {
    const left: Button
    const middle: Button
    const right: Button

    /** No two buttons are the same object, so updating one leaves the
        others as they were. */
    predicate Separate()
    {
      left != middle && left != right && middle != right
    }

    constructor(left: Button, middle: Button, right: Button)
      requires left != middle && left != right && middle != right
      ensures this.left == left && this.middle == middle && this.right == right
      ensures Separate()
    {
      this.left := left;
      this.middle := middle;
      this.right := right;
    }

    /** `press()`: some button is down. */
    predicate Press()
      reads left, middle, right
    {
      left.curr || middle.curr || right.curr
    }

    /** `pressed()`: some button went down at the last update. */
    predicate Pressed()
      reads left, middle, right
    {
      left.Pressed() || middle.Pressed() || right.Pressed()
    }

    /** `released()`: some button went up at the last update. */
    predicate Released()
      reads left, middle, right
    {
      left.Released() || middle.Released() || right.Released()
    }
  }

  /** A reported press means some button is down, and a reported release
      means some button is up; with all three buttons steady the mouse
      reports neither edge. */
  lemma MouseEdges(m: Mouse)
    ensures m.Pressed() ==> m.Press()
    ensures m.Released() ==> !(m.left.curr && m.middle.curr && m.right.curr)
    ensures m.left.prev == m.left.curr && m.middle.prev == m.middle.curr && m.right.prev == m.right.curr ==>
              !m.Pressed() && !m.Released()
  {
  }

  /** Unlike a single button, the mouse can report a press and a release at
      once: one button goes down while another goes up. */
  method PressAndReleaseTogether() returns (m: Mouse)
    ensures m.Pressed() && m.Released()
  {
    var l := new Button(false, true);
    var mid := new Button(true, false);
    var r := new Button(false, false);
    m := new Mouse(l, mid, r);
  }
}
