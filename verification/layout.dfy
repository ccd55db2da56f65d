/** Page geometry and page contents shared by the whole virtual memory model. */
module Layout {
  const PAGE_SIZE: nat := 4096

  type Byte = b: int | 0 <= b < 256
  type Page = p: seq<Byte> | |p| == PAGE_SIZE witness seq(PAGE_SIZE, _ => 0)

  function ZeroPage(): (z: Page)
    ensures forall i :: 0 <= i < PAGE_SIZE ==> z[i] == 0
  {
    seq(PAGE_SIZE, _ => 0)
  }

  /** The address with its in-page offset cleared, `va & PAGE_FRAME`. */
  function PageBase(va: nat): nat {
    va - va % PAGE_SIZE
  }

  /** The page with `bytes` stored from offset `start` on. */
  function Overlay(page: Page, start: nat, bytes: seq<Byte>): (r: Page)
    requires start + |bytes| <= PAGE_SIZE
    ensures forall i :: 0 <= i < PAGE_SIZE ==>
      r[i] == if start <= i < start + |bytes| then bytes[i - start] else page[i]
  {
    page[..start] + bytes + page[start + |bytes|..]
  }

  /** What a file read of `n` bytes at offset `off` delivers: less than `n` bytes at the end of the file. */
  function ReadFile(file: seq<Byte>, off: nat, n: nat): (r: seq<Byte>)
    ensures |r| <= n
    ensures |r| == if off >= |file| then 0 else if off + n <= |file| then n else |file| - off
    ensures forall i :: 0 <= i < |r| ==> r[i] == file[off + i]
  {
    if off >= |file| then [] else if off + n <= |file| then file[off..off + n] else file[off..]
  }
}
