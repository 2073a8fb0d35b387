/** Machine words and memory. */
module Words {
  type Word = x: int | 0 <= x < 0x1_0000_0000

  /** Memory: the word stored at the address of a word. */
  type Mem = int -> Word

  datatype Option<+T> = None | Some(value: T)

  function Store(m: Mem, a: int, w: Word): Mem {
    x => if x == a then w else m(x)
  }

  /** `memset(page, 0, 4096)` on the frame `f`. */
  function ZeroFrame(m: Mem, f: int): Mem {
    x => if f <= x < f + 4096 then 0 else m(x)
  }

  /** A C function either comes back with a value, or stops the kernel: a failed assertion, a panic, a page
      fault, or an access outside of the object it was meant for. */
  datatype Outcome<+T> = Ok(value: T) | Halt

  ghost predicate NoDup<T>(s: seq<T>) {
    forall i, j :: 0 <= i < j < |s| ==> s[i] != s[j]
  }
}
