/** What several parts share: C's unsigned words and strings, and the sizes of param.h that bind log, cache and
    file writes to one another. */
module Common {

  const UINT: nat := 0x1_0000_0000       // values of a 32-bit unsigned word
  const MAXOPBLOCKS: nat := 10           // blocks one FS operation may write
  const LOGSIZE: nat := 30               // MAXOPBLOCKS*3, data blocks in the on-disk log
  const NBUF: nat := 30                  // MAXOPBLOCKS*3, buffers of the disk block cache
  const PIPESIZE: nat := 512             // bytes a pipe buffers
  const NUL: char := '\0'

  type byte = x: int | 0 <= x < 256

  /** A C string without its terminating NUL. */
  type CString = s: string | NUL !in s

  datatype Option<T> = None | Some(value: T)

  lemma {:induction false} SubsetSize<T>(a: set<T>, b: set<T>)
    requires a <= b
    ensures |a| <= |b| && (|a| == |b| <==> a == b)
  {
    if a != {} {
      var x :| x in a;
      SubsetSize(a - {x}, b - {x});
      assert a == (a - {x}) + {x} && b == (b - {x}) + {x};
    }
  }

  ghost predicate Distinct<T>(s: seq<T>) {
    forall i, j :: 0 <= i < j < |s| ==> s[i] != s[j]
  }
}
