/**
 * The shared keyboard layer: a table of 256 key slots that `keyDown` and
 * `keyUp` overwrite and `checkKey` polls, so that a key reads as "just
 * pressed" on the first poll after its `keyDown` only, until the next key
 * event for that code. A repeated `keyDown` for a held key makes it read as
 * "just pressed" again.
 */
module Keyboard {

  /** The number of key slots. */
  const KeyCount: nat := 256

  /**
   * The content of one slot: never written (JavaScript `undefined`), up (0),
   * just pressed (1), or pressed and already polled (2).
   */
  datatype KeyState = Unset | Up | Pressed | Polled

  /** What `checkKey` answers: `false` for a code outside the table, else the slot. */
  datatype Poll = NotAKey | Slot(state: KeyState)

  /** The range test of `checkKey`. */
  predicate InRange(keyCode: int) {
    keyCode > -1 && keyCode < KeyCount
  }

  /**
   * The table after a key event writes `s` into slot `keyCode`. A code outside
   * the table leaves the 256 slots as they were.
   */
  function Write(keys: seq<KeyState>, keyCode: int, s: KeyState): (r: seq<KeyState>)
    requires |keys| == KeyCount
    ensures |r| == KeyCount
    ensures forall i | 0 <= i < KeyCount :: r[i] == (if i == keyCode then s else keys[i])
  {
    if InRange(keyCode) then keys[keyCode := s] else keys
  }

  /** `keyDown`: slot `keyCode` becomes just pressed, even if it was already polled. */
  function Press(keys: seq<KeyState>, keyCode: int): (r: seq<KeyState>)
    requires |keys| == KeyCount
    ensures |r| == KeyCount
    ensures InRange(keyCode) ==> r[keyCode] == Pressed
    ensures forall i | 0 <= i < KeyCount && i != keyCode :: r[i] == keys[i]
  {
    Write(keys, keyCode, Pressed)
  }

  /** `keyUp`: slot `keyCode` becomes up. */
  function Release(keys: seq<KeyState>, keyCode: int): (r: seq<KeyState>)
    requires |keys| == KeyCount
    ensures |r| == KeyCount
    ensures InRange(keyCode) ==> r[keyCode] == Up
    ensures forall i | 0 <= i < KeyCount && i != keyCode :: r[i] == keys[i]
  {
    Write(keys, keyCode, Up)
  }

  /**
   * `checkKey`: the answer and the table afterwards. In range, the answer is
   * the slot's prior value and a just-pressed slot becomes polled; no slot
   * other than the polled one ever changes.
   */
  function Check(keys: seq<KeyState>, keyCode: int): (r: (Poll, seq<KeyState>))
    requires |keys| == KeyCount
    ensures |r.1| == KeyCount
    ensures !InRange(keyCode) ==> r == (NotAKey, keys)
    ensures InRange(keyCode) ==> r.0 == Slot(keys[keyCode])
    ensures InRange(keyCode) ==> r.1[keyCode] == (if keys[keyCode] == Pressed then Polled else keys[keyCode])
    ensures forall i | 0 <= i < KeyCount && i != keyCode :: r.1[i] == keys[i]
  {
    if InRange(keyCode) then
      var ret := keys[keyCode];
      (Slot(ret), if ret == Pressed then keys[keyCode := Polled] else keys)
    else
      (NotAKey, keys)
  }

  /** The answers of `n` successive `checkKey(keyCode)` calls with no key event between them. */
  function CheckTimes(keys: seq<KeyState>, keyCode: int, n: nat): (r: seq<Poll>)
    requires |keys| == KeyCount
    ensures |r| == n
    decreases n
  {
    if n == 0 then []
    else
      var (ret, keys') := Check(keys, keyCode);
      [ret] + CheckTimes(keys', keyCode, n - 1)
  }

  /** A slot that has been polled keeps answering "polled". */
  lemma {:induction false} PolledStaysPolled(keys: seq<KeyState>, keyCode: int, n: nat)
    requires |keys| == KeyCount && InRange(keyCode) && keys[keyCode] == Polled
    ensures forall k | 0 <= k < n :: CheckTimes(keys, keyCode, n)[k] == Slot(Polled)
  {
    if n > 0 {
      PolledStaysPolled(keys, keyCode, n - 1);
    }
  }

  /**
   * After `keyDown(c)`, the first `checkKey(c)` answers "just pressed" and every
   * later one answers "polled", until the next key event for `c`.
   */
  lemma {:induction false} PressThenCheck(keys: seq<KeyState>, keyCode: int, n: nat)
    requires |keys| == KeyCount && InRange(keyCode) && n > 0
    ensures CheckTimes(Press(keys, keyCode), keyCode, n)[0] == Slot(Pressed)
    ensures forall k | 1 <= k < n :: CheckTimes(Press(keys, keyCode), keyCode, n)[k] == Slot(Polled)
  {
    var pressed := Press(keys, keyCode);
    var after := Check(pressed, keyCode).1;
    PolledStaysPolled(after, keyCode, n - 1);
    assert forall k | 1 <= k < n :: CheckTimes(pressed, keyCode, n)[k] == CheckTimes(after, keyCode, n - 1)[k - 1];
  }

  /**
   * A second `keyDown(c)` for a key that is still held, as key repeat sends,
   * makes the next `checkKey(c)` answer "just pressed" again.
   */
  lemma RepeatedKeyDownRearms(keys: seq<KeyState>, keyCode: int)
    requires |keys| == KeyCount && InRange(keyCode)
    ensures var polled := Check(Press(keys, keyCode), keyCode).1;
      && polled[keyCode] == Polled
      && Check(Press(polled, keyCode), keyCode).0 == Slot(Pressed)
  {
  }

  /** After `keyUp(c)`, every `checkKey(c)` answers "up" until the next key event for `c`. */
  lemma {:induction false} ReleaseThenCheck(keys: seq<KeyState>, keyCode: int, n: nat)
    requires |keys| == KeyCount && InRange(keyCode)
    ensures forall k | 0 <= k < n :: CheckTimes(Release(keys, keyCode), keyCode, n)[k] == Slot(Up)
  {
    if n > 0 {
      var released := Release(keys, keyCode);
      assert Check(released, keyCode).1 == released;
      ReleaseThenCheck(keys, keyCode, n - 1);
    }
  }

  /** The table `init` leaves behind: no slot has been written. */
  function FreshTable(): (r: seq<KeyState>)
    ensures |r| == KeyCount
    ensures forall i | 0 <= i < KeyCount :: r[i] == Unset
  {
    seq(KeyCount, _ => Unset)
  }

  /** The table `init` evidently means to build: every key up. */
  function ZeroedTable(): (r: seq<KeyState>)
    ensures |r| == KeyCount
    ensures forall i | 0 <= i < KeyCount :: r[i] == Up
  {
    seq(KeyCount, _ => Up)
  }

  /**
   * As written, a key that has never been pressed or released answers
   * `undefined`, not 0, and goes on doing so however often it is polled.
   */
  lemma {:induction false} FreshKeyAnswersUnset(keyCode: int, n: nat)
    requires InRange(keyCode)
    ensures forall k | 0 <= k < n :: CheckTimes(FreshTable(), keyCode, n)[k] == Slot(Unset)
    ensures n > 0 ==> CheckTimes(FreshTable(), keyCode, n)[0] != Slot(Up)
    decreases n
  {
    if n > 0 {
      assert Check(FreshTable(), keyCode).1 == FreshTable();
      FreshKeyAnswersUnset(keyCode, n - 1);
    }
  }

  /** With the zeroed table, a key that has never been pressed answers "up". */
  lemma {:induction false} ZeroedKeyAnswersUp(keyCode: int, n: nat)
    requires InRange(keyCode)
    ensures forall k | 0 <= k < n :: CheckTimes(ZeroedTable(), keyCode, n)[k] == Slot(Up)
    decreases n
  {
    if n > 0 {
      assert Check(ZeroedTable(), keyCode).1 == ZeroedTable();
      ZeroedKeyAnswersUp(keyCode, n - 1);
    }
  }

  /** The keyboard layer, owning the table of key slots. */
  class KeyboardLayer {
    var keys: array<KeyState>

    ghost predicate Valid()
      reads this
    {
      keys.Length == KeyCount
    }

    /**
     * `init`: a table of 256 slots. The source's loop over the fresh array
     * visits no index and only assigns its loop variable, so every slot stays
     * unset.
     */
    constructor Init()
      ensures Valid() && fresh(keys)
      ensures keys[..] == FreshTable()
    {
      keys := new KeyState[KeyCount](_ => Unset);
    }

    /** `init` with its loop zeroing every slot, as the loop evidently means to. */
    constructor InitZeroed()
      ensures Valid() && fresh(keys)
      ensures keys[..] == ZeroedTable()
    {
      keys := new KeyState[KeyCount](_ => Unset);
      new;
      var key := 0;
      while key < KeyCount
        invariant 0 <= key <= KeyCount
        invariant forall i | 0 <= i < key :: keys[i] == Up
        modifies keys
      {
        keys[key] := Up;
        key := key + 1;
      }
    }

    method KeyDown(keyCode: int)
      requires Valid()
      modifies keys
      ensures Valid()
      ensures keys[..] == Press(old(keys[..]), keyCode)
    {
      if InRange(keyCode) {
        keys[keyCode] := Pressed;
      }
    }

    method KeyUp(keyCode: int)
      requires Valid()
      modifies keys
      ensures Valid()
      ensures keys[..] == Release(old(keys[..]), keyCode)
    {
      if InRange(keyCode) {
        keys[keyCode] := Up;
      }
    }

    method CheckKey(keyCode: int) returns (r: Poll)
      requires Valid()
      modifies keys
      ensures Valid()
      ensures (r, keys[..]) == Check(old(keys[..]), keyCode)
    {
      if keyCode > -1 && keyCode < KeyCount {
        var ret := keys[keyCode];
        if ret == Pressed {
          keys[keyCode] := Polled;
        }
        return Slot(ret);
      }
      return NotAKey;
    }
  }
}
