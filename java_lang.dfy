/**
 * The Java runtime vocabulary the model needs: bytes, fixed-width integers,
 * the byte-wise exclusive-or that `^=` performs on byte arrays, optional
 * values for nullable references, and the exceptions the core throws,
 * written as values of a `Result`.
 */
module JavaLang {

  /** A Java `byte`, viewed unsigned; `^` on signed bytes is the same bitwise. */
  type byte = b: int | 0 <= b < 256

  /** Java `int`. */
  type int32 = x: int | -0x8000_0000 <= x < 0x8000_0000

  /** Java `long`. */
  type int64 = x: int | -0x8000_0000_0000_0000 <= x < 0x8000_0000_0000_0000

  /** A nullable reference: `None` is Java's `null`. */
  datatype Option<+T> = None | Some(value: T)

  /**
   * The exceptions thrown by the core. `UnexpectedEncryptionState` and
   * `UnexpectedDecryptionState` are the two subclasses of
   * `Encryption.UnexpectedStateException`.
   */
  datatype Exception =
    | IllegalArgument(message: string)
    | UnexpectedEncryptionState
    | UnexpectedDecryptionState
    | NumberFormat(input: string)
    | UnsupportedOperation
    | ArrayIndexOutOfBounds(index: int)
  {
    /** Instances of `UnexpectedStateException`. */
    predicate IsUnexpectedState() {
      UnexpectedEncryptionState? || UnexpectedDecryptionState?
    }
  }

  /** The outcome of a Java call: a returned value or a thrown exception. */
  datatype Result<+T> = Ok(value: T) | Err(error: Exception)

  function Pow2(k: nat): (r: nat)
    ensures r >= 1
  {
    if k == 0 then 1 else 2 * Pow2(k - 1)
  }

  /** Bitwise exclusive-or of two naturals, one bit at a time from the low end. */
  function Xor(a: nat, b: nat): nat
    decreases a + b
  {
    if a == 0 && b == 0 then 0 else 2 * Xor(a / 2, b / 2) + (a + b) % 2
  }

  /** Exclusive-or never sets a bit above the highest bit of its operands. */
  lemma {:induction false} XorBound(a: nat, b: nat, k: nat)
    requires a < Pow2(k) && b < Pow2(k)
    ensures Xor(a, b) < Pow2(k)
  {
    if a != 0 || b != 0 {
      XorBound(a / 2, b / 2, k - 1);
    }
  }

  /** `a ^ b` on two bytes. */
  function XorByte(a: byte, b: byte): (r: byte)
  {
    assert Pow2(8) == 256;
    XorBound(a, b, 8);
    Xor(a, b)
  }

  lemma {:induction false} XorZero(a: nat)
    ensures Xor(a, 0) == a
  {
    if a != 0 {
      XorZero(a / 2);
    }
  }

  /** The low bit of `a ^ b` and the exclusive-or of the remaining bits. */
  lemma XorHalves(a: nat, b: nat)
    ensures Xor(a, b) / 2 == Xor(a / 2, b / 2) && Xor(a, b) % 2 == (a + b) % 2
  {
  }

  /** Exclusive-or with the same operand twice is the identity. */
  lemma {:induction false} XorCancel(a: nat, b: nat)
    ensures Xor(Xor(a, b), b) == a
    decreases a + b
  {
    var x := Xor(a, b);
    if b == 0 {
      XorZero(a);
      XorZero(x);
    } else {
      XorHalves(a, b);
      XorHalves(x, b);
      XorCancel(a / 2, b / 2);
      var y := Xor(x, b);
      assert y / 2 == a / 2;
      assert y % 2 == a % 2 by {
        assert x % 2 == (a + b) % 2;
        ParityOfSum(x, b, a);
      }
    }
  }

  lemma ParityOfSum(x: nat, b: nat, a: nat)
    requires x % 2 == (a + b) % 2
    ensures (x + b) % 2 == a % 2
  {
  }

  /** For a fixed right operand, exclusive-or is injective in its left operand. */
  lemma XorInjective(a: nat, a': nat, b: nat)
    requires Xor(a, b) == Xor(a', b)
    ensures a == a'
  {
    XorCancel(a, b);
    XorCancel(a', b);
  }
}
