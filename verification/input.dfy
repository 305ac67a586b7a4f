/**
 * `Input<T>` (app/input.rs): the set of keys (or buttons) held down, and the set of keys
 * pressed since the last `clear_just_pressed`.
 */
module Input {
  /** `pressed_any`: `keys.iter().any(pressed)`, folded from the front. */
  function PressedAny<T(==)>(held: set<T>, keys: seq<T>): (r: bool)
    ensures r <==> exists i :: 0 <= i < |keys| && keys[i] in held
  {
    if keys == [] then false
    else if keys[0] in held then true
    else
      var rest := PressedAny(held, keys[1..]);
      assert forall i :: 1 <= i < |keys| ==> keys[i] == keys[1..][i - 1];
      rest
  }

  /** `pressed_all`: `keys.iter().all(pressed)`, folded from the front. */
  function PressedAll<T(==)>(held: set<T>, keys: seq<T>): (r: bool)
    ensures r <==> forall i :: 0 <= i < |keys| ==> keys[i] in held
  {
    if keys == [] then true
    else if keys[0] !in held then false
    else
      var rest := PressedAll(held, keys[1..]);
      assert forall i :: 1 <= i < |keys| ==> keys[i] == keys[1..][i - 1];
      rest
  }

  /** No key of an empty list is pressed, and every key of it is. */
  lemma EmptyKeys<T>(held: set<T>)
    ensures !PressedAny(held, []) && PressedAll(held, [])
  {
  }

  /** On a non-empty list, all pressed implies some pressed. */
  lemma AllImpliesAny<T>(held: set<T>, keys: seq<T>)
    requires keys != [] && PressedAll(held, keys)
    ensures PressedAny(held, keys)
  {
    assert keys[0] in held;
  }

  class Input<T(==)> {
    /** `storage`: the keys held down. */
    var storage: set<T>
    var justPressed: set<T>

    /** `new`: nothing held, nothing just pressed. */
    constructor ()
      ensures storage == {} && justPressed == {}
    {
      storage := {};
      justPressed := {};
    }

    function Pressed(key: T): bool
      reads this
    {
      key in storage
    }

    function JustPressed(key: T): bool
      reads this
    {
      key in justPressed
    }

    /** `press`, as written: only the held set grows; `just_pressed` is left alone. */
    method Press(key: T)
      modifies this
      ensures storage == old(storage) + {key} && justPressed == old(justPressed)
      ensures Pressed(key)
    {
      storage := storage + {key};
    }

    /**
     * `press` as its callers evidently expect it: a key that was not held is also recorded
     * as just pressed; holding a key down does not mark it again.
     */
    method PressMarking(key: T)
      modifies this
      ensures storage == old(storage) + {key}
      ensures justPressed == if key in old(storage) then old(justPressed) else old(justPressed) + {key}
      ensures Pressed(key) && (!old(Pressed(key)) ==> JustPressed(key))
    {
      if key !in storage {
        justPressed := justPressed + {key};
      }
      storage := storage + {key};
    }

    /** `release`: the key is no longer held; other keys and `just_pressed` are untouched. */
    method Release(key: T)
      modifies this
      ensures storage == old(storage) - {key} && justPressed == old(justPressed)
      ensures !Pressed(key)
    {
      storage := storage - {key};
    }

    /** `clear_just_pressed`: empties `just_pressed` and leaves the held set alone. */
    method ClearJustPressed()
      modifies this
      ensures justPressed == {} && storage == old(storage)
    {
      justPressed := {};
    }
  }

  /** With the `press` as written, a key pressed on a fresh input is never reported as just pressed. */
  method JustPressedNeverSet<T(==)>(key: T) returns (pressed: bool, justPressed: bool)
    ensures pressed && !justPressed
  {
    var input := new Input<T>();
    input.Press(key);
    pressed := input.Pressed(key);
    justPressed := input.JustPressed(key);
  }

  /** With the marking `press`, the same sequence reports the key as just pressed until the next clear. */
  method JustPressedMarked<T(==)>(key: T) returns (before: bool, after: bool)
    ensures before && !after
  {
    var input := new Input<T>();
    input.PressMarking(key);
    before := input.JustPressed(key);
    input.ClearJustPressed();
    input.PressMarking(key);
    after := input.JustPressed(key);
  }
}
