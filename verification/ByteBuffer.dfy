/** The byte buffer: a piece of memory and the two indices between which its data lies. */
module ByteBuffer {

  class Buffer {
    // All of the memory; its length is the size of the buffer.
    var memory: string
    var dataBegin: nat
    var dataEnd: nat
    var owner: bool

    ghost predicate Valid()
      reads this
    {
      dataBegin <= dataEnd <= |memory|
    }

    function Data(): string
      requires Valid()
      reads this
    {
      memory[dataBegin..dataEnd]
    }

    function DataSize(): nat
      requires Valid()
      reads this
    {
      dataEnd - dataBegin
    }

    function FreeSize(): nat
      requires Valid()
      reads this
    {
      |memory| - dataEnd
    }

    constructor (memory: string, owner: bool)
      ensures Valid() && Data() == "" && dataBegin == 0 && this.memory == memory && this.owner == owner
    {
      this.memory, this.owner, dataBegin, dataEnd := memory, owner, 0, 0;
    }

    method Reset()
      modifies this
      ensures Valid() && Data() == "" && dataBegin == 0 && memory == old(memory) && owner == old(owner)
    {
      dataBegin, dataEnd := 0, 0;
    }

    // Allocated memory holds anything.
    method Allocate(n: nat) returns (m: string)
      ensures |m| == n
    {
      assert |seq(n, _ => ' ')| == n;
      m :| |m| == n;
    }

    // Room for newSize bytes in all.  If that takes new memory, the data is lost.
    method Reserve(newSize: nat) returns (grown: bool)
      requires Valid()
      modifies this
      ensures Valid() && grown == (!old(owner) || newSize > old(|memory|)) && owner
      ensures if grown then |memory| == newSize && dataBegin == 0 && Data() == ""
              else memory == old(memory) && dataBegin == old(dataBegin) && dataEnd == old(dataEnd)
    {
      grown := !owner || newSize > |memory|;
      if grown {
        memory := Allocate(newSize);
        dataBegin, dataEnd, owner := 0, 0, true;
      }
    }

    // Writing after the data; the memory is enlarged, and the data kept, if there is not enough of it.
    method Write(data: string) returns (ok: bool)
      requires Valid()
      modifies this
      ensures Valid() && ok == old(owner) && owner == old(owner) && dataBegin == old(dataBegin)
      ensures ok ==> Data() == old(Data()) + data && |memory| == Grown(old(|memory|), old(dataEnd), |data|)
      ensures ok && |data| <= old(FreeSize()) ==> |memory| == old(|memory|)
      ensures ok && |data| > old(FreeSize()) ==> |memory| == 2 * old(|memory|) + |data|
      ensures !ok ==> memory == old(memory) && dataEnd == old(dataEnd)
    {
      ok := owner;
      if ok {
        if |memory| - dataEnd < |data| {
          var more := Allocate(Grown(|memory|, dataEnd, |data|) - |memory|);
          memory := memory + more;
        }
        memory := memory[..dataEnd] + data + memory[dataEnd + |data|..];
        dataEnd := dataEnd + |data|;
      }
    }

    method Read(size: nat) returns (ok: bool, data: string)
      requires Valid()
      modifies `dataBegin
      ensures Valid() && ok == (old(DataSize()) >= size)
      ensures ok ==> |data| == size && data + Data() == old(Data())
      ensures !ok ==> dataBegin == old(dataBegin)
    {
      ok, data := dataEnd - dataBegin >= size, "";
      if ok {
        data := memory[dataBegin..dataBegin + size];
        dataBegin := dataBegin + size;
      }
    }

    // Sets the end of the data; the beginning never lies behind it.
    method SetDataEnd(newEnd: nat)
      requires Valid()
      modifies `dataBegin, `dataEnd
      ensures Valid() && dataEnd == (if newEnd > |memory| then |memory| else newEnd)
      ensures dataBegin == if old(dataBegin) > dataEnd then dataEnd else old(dataBegin)
    {
      dataEnd := if newEnd > |memory| then |memory| else newEnd;
      if dataBegin > dataEnd {
        dataBegin := dataEnd;
      }
    }

    // snprintf into the memory: at most n bytes from `at` on, the last of them a NUL.
    method Print(at: nat, n: nat, text: string) returns (ret: nat)
      requires Valid() && n > 0 && at + n <= |memory|
      modifies `memory
      ensures Valid() && |memory| == old(|memory|) && ret == |text|
      ensures var k := if |text| < n then |text| else n - 1;
        memory == old(memory)[..at] + text[..k] + [0 as char] + old(memory)[at + k + 1..]
      ensures memory[..at] == old(memory)[..at]
      ensures |text| < n ==> at + |text| <= |memory| && memory[at..at + |text|] == text
    {
      var shown := if |text| < n then text else text[..n - 1];
      memory := memory[..at] + shown + [0 as char] + memory[at + |shown| + 1..];
      ret := |text|;
    }
  }

  // The size of the memory after len bytes have been written behind `end`.
  function Grown(size: nat, end: nat, len: nat): nat
    requires end <= size
  {
    if size - end >= len then size else size * 100 / 100 + size + len
  }
}
