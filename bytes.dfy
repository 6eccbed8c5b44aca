/**
 * Machine integer types of the bridge and the growable byte buffer that the
 * command builder appends to (Rust's `Vec<u8>` with `append`).
 */
module Bytes {

  /** Rust `u8`: one byte, also the element type of every command buffer. */
  newtype u8 = x: int | 0 <= x < 0x100

  /** Rust `u32`: the magnitude-typed vehicle signals. */
  newtype u32 = x: int | 0 <= x < 0x1_0000_0000

  /** Rust `i8`: the simulator's signed indicator state. */
  newtype i8 = x: int | -0x80 <= x < 0x80

  /** A growable byte buffer that is only ever appended to. */
  class ByteBuffer {
    var bytes: seq<u8>

    /** `vec![0; 0]`: a buffer with no bytes. */
    constructor ()
      ensures bytes == []
    {
      bytes := [];
    }

    /** `buffer.append(&mut b)`: the bytes of `b` follow the existing contents. */
    method Append(b: seq<u8>)
      modifies this
      ensures bytes == old(bytes) + b
    {
      bytes := bytes + b;
    }
  }
}
