/** `std::io::Cursor<Vec<u8>>` as the decoder uses it: a byte buffer and a
    position, advanced by `read_f64::<LE>` and by relative `seek`s. */
module IoCursor {
  import opened Bytes
  import opened Wrappers

  /** `u64::MAX + 1`: the position of a std cursor is a `u64`. */
  const POSITION_LIMIT: nat := 0x1_0000_0000_0000_0000

  datatype CursorError =
    | UnexpectedEof   // `read_exact` ran past the end of the buffer
    | InvalidSeek     // a relative seek overflowed the `u64` position

  class Cursor {
    const data: seq<u8>
    var pos: nat

    ghost predicate Valid()
      reads this
    {
      pos < POSITION_LIMIT && |data| < POSITION_LIMIT
    }

    /** `Cursor::new(buf)`: positioned at the start. */
    constructor (data: seq<u8>)
      requires |data| < POSITION_LIMIT  // a Vec never holds 2^64 bytes
      ensures this.data == data && pos == 0 && Valid()
    {
      this.data := data;
      pos := 0;
    }

    /** `read_f64::<LE>()`, keeping the float's raw bits: `read_exact` of 8 bytes.
        Fails when fewer than 8 bytes remain (the position may lie past the end
        after a seek) and then leaves the position at the end of the buffer. */
    method ReadU64Le() returns (r: Result<u64, CursorError>)
      requires Valid()
      modifies this
      ensures Valid()
      ensures old(pos) + 8 <= |data| ==> r == Ok(LeU64(data[old(pos)..old(pos) + 8])) && pos == old(pos) + 8
      ensures old(pos) + 8 > |data| ==> r == Err(UnexpectedEof) && pos == |data|
    {
      if pos + 8 <= |data| {
        r := Ok(LeU64(data[pos..pos + 8]));
        pos := pos + 8;
      } else {
        r := Err(UnexpectedEof);
        pos := |data|;
      }
    }

    /** `seek(SeekFrom::Current(delta))` for a non-negative delta: moving past
        the end is allowed, only overflowing the `u64` position fails. */
    method Seek(delta: nat) returns (r: Result<nat, CursorError>)
      requires Valid()
      modifies this
      ensures Valid()
      ensures old(pos) + delta < POSITION_LIMIT ==> r == Ok(old(pos) + delta) && pos == old(pos) + delta
      ensures old(pos) + delta >= POSITION_LIMIT ==> r == Err(InvalidSeek) && pos == old(pos)
    {
      if pos + delta < POSITION_LIMIT {
        pos := pos + delta;
        r := Ok(pos);
      } else {
        r := Err(InvalidSeek);
      }
    }
  }
}
