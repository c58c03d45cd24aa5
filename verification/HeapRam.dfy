/** The heap of mem.c as it is: block headers stored inside one byte array.

    Valid() says that the bytes encode the block list `blocks`, and every method proves that
    its link surgery turns one block list into the one that module HeapLayout prescribes. */
module HeapRam {
  import opened Basics
  import opened HeapLayout
  import opened HeapImage

  class Heap {
    const size: nat                // MEM_SIZE_ALIGNED; also the index of ram_end
    const ram: array<byte>
    var lfree: nat
    ghost var blocks: seq<Block>

    ghost function Headers(): Table
      reads ram
    {
      TableOf(ram[..])
    }

    ghost predicate Valid()
      reads this, ram
    {
      && WellFormed(blocks, size)
      && ram.Length == size + HDR
      && Encodes(Headers(), blocks, size)
      && lfree == AddrAt(blocks, FirstFree(blocks, 0), size)
    }

    function Read(p: nat): (h: Hdr)
      requires p + HDR <= ram.Length
      reads ram
      ensures p in Headers() && h == Headers()[p]
    {
      HdrAt(ram[..], p)
    }

    method PutWord(p: nat, v: int)
      requires p + 4 <= ram.Length && 0 <= v < TWO32
      modifies ram
      ensures WordAt(ram[..], p) == v
      ensures forall i | 0 <= i < ram.Length && !(p <= i < p + 4) :: ram[i] == old(ram[i])
    {
      WordOfOctets(v);
      ram[p], ram[p + 1] := Octet(v), Octet(v / 256);
      ram[p + 2], ram[p + 3] := Octet(v / 256 / 256), Octet(v / 256 / 256 / 256);
    }

    method SetNext(p: nat, v: int)
      requires p + HDR <= ram.Length && 0 <= v < TWO32
      modifies ram
      ensures BytesKeptBut(old(ram[..]), ram[..], {p}) && KeptBut(old(Headers()), Headers(), {p})
      ensures p in old(Headers()) && Holds(Headers(), p, old(Headers())[p].(next := v))
    {
      ghost var m := ram[..];
      PutWord(p, v);
      HeaderFrame(m, ram[..], p);
      assert HdrAt(ram[..], p) == HdrAt(m, p).(next := v);
    }

    method SetPrev(p: nat, v: int)
      requires p + HDR <= ram.Length && 0 <= v < TWO32
      modifies ram
      ensures BytesKeptBut(old(ram[..]), ram[..], {p}) && KeptBut(old(Headers()), Headers(), {p})
      ensures p in old(Headers()) && Holds(Headers(), p, old(Headers())[p].(prev := v))
    {
      ghost var m := ram[..];
      PutWord(p + 4, v);
      HeaderFrame(m, ram[..], p);
      assert HdrAt(ram[..], p) == HdrAt(m, p).(prev := v);
    }

    method SetUsed(p: nat, used: bool)
      requires p + HDR <= ram.Length
      modifies ram
      ensures BytesKeptBut(old(ram[..]), ram[..], {p})
      ensures Flagged(old(Headers()), Headers(), p, used)
    {
      ghost var m := ram[..];
      ram[p + 8] := if used then 1 else 0;
      HeaderFrame(m, ram[..], p);
      assert HdrAt(ram[..], p) == HdrAt(m, p).(used := if used then 1 else 0);
    }

    method SetHeader(p: nat, h: Hdr)
      requires p + HDR <= ram.Length && 0 <= h.next < TWO32 && 0 <= h.prev < TWO32 && 0 <= h.used < 256
      modifies ram
      ensures BytesKeptBut(old(ram[..]), ram[..], {p}) && KeptBut(old(Headers()), Headers(), {p})
      ensures Holds(Headers(), p, h)
    {
      ghost var m := ram[..];
      ram[p + 8] := h.used;
      PutWord(p, h.next);
      PutWord(p + 4, h.prev);
      HeaderFrame(m, ram[..], p);
    }

    /** Put a free header at `mid` and link it between the headers at `ptr` and `next`; the
        end marker's links are never touched. */
    method LinkIn(ptr: nat, mid: nat, next: nat)
      requires ptr + HDR <= ram.Length && mid + HDR <= ram.Length && next + HDR <= ram.Length <= MAX_HEAP + HDR
      requires Apart(ptr, mid) && Apart(mid, next) && Apart(ptr, next)
      modifies ram
      ensures LinkedIn(old(Headers()), Headers(), ptr, mid, next, size)
      ensures BytesKeptBut(old(ram[..]), ram[..], {mid, ptr, next})
    {
      ghost var m := ram[..];
      SetHeader(mid, Hdr(next, ptr, 0));
      ghost var m1 := ram[..];
      SetNext(ptr, mid);
      ghost var m2 := ram[..];
      if next != size {
        SetPrev(next, mid);
      }
      LinkInSteps(TableOf(m), TableOf(m1), TableOf(m2), Headers(), ptr, mid, next, size);
      LinkInBytes(m, m1, m2, ram[..], ptr, mid, next, size);
    }

    /** Link the headers at `ptr` and `next` directly, dropping what was between. */
    method LinkOut(ptr: nat, next: nat)
      requires ptr + HDR <= ram.Length && next + HDR <= ram.Length <= MAX_HEAP + HDR && Apart(ptr, next)
      modifies ram
      ensures LinkedOut(old(Headers()), Headers(), ptr, next, size)
      ensures BytesKeptBut(old(ram[..]), ram[..], {ptr, next})
    {
      ghost var m := ram[..];
      SetNext(ptr, next);
      ghost var m1 := ram[..];
      if next != size {
        SetPrev(next, ptr);
        BytesCompose(m, m1, ram[..], {ptr}, {next});
      }
      LinkOutSteps(TableOf(m), TableOf(m1), Headers(), ptr, next, size);
      BytesWiden(m, ram[..], if next != size then {ptr} + {next} else {ptr}, {ptr, next});
    }

    /** Everything Valid() says but for lfree. */
    ghost predicate Linked()
      reads this, ram
    {
      WellFormed(blocks, size) && ram.Length == size + HDR && Encodes(Headers(), blocks, size)
    }

    /** Cut block `k`, which starts at `ptr`, after `need` data bytes. */
    method Carve(ptr: nat, need: nat, ghost k: nat)
      requires Tiled(blocks, size) && ram.Length == size + HDR && Encodes(Headers(), blocks, size)
      requires k < |blocks| && ptr == blocks[k].addr
      requires need % ALIGN == 0 && need >= MIN_DATA && Splits(blocks, k, size, need)
      modifies ram, this`blocks
      ensures blocks == Cut(old(blocks), k, need) && Tiled(blocks, size) && Encodes(Headers(), blocks, size)
      ensures BytesKeptBut(old(ram[..]), ram[..], {ptr + HDR + need, ptr, AddrAt(old(blocks), k + 1, size)})
    {
      ghost var m, bs := ram[..], blocks;
      CarvePlaces(bs, k, need, size);
      CutTiled(bs, k, size, need);
      var ptr2 := ptr + HDR + need;
      var next := NextOf(ptr, k);
      LinkIn(ptr, ptr2, next);
      LinkInEncodes(TableOf(m), Headers(), bs, k, need, size);
      blocks := Cut(bs, k, need);
    }

    /** Set the flag of block `k`, which starts at `ptr`. */
    method Flag(ptr: nat, used: bool, ghost k: nat)
      requires Tiled(blocks, size) && ram.Length == size + HDR && Encodes(Headers(), blocks, size)
      requires k < |blocks| && ptr == blocks[k].addr
      modifies ram, this`blocks
      ensures blocks == old(blocks)[k := Block(ptr, used)] && Tiled(blocks, size) && Encodes(Headers(), blocks, size)
      ensures BytesKeptBut(old(ram[..]), ram[..], {ptr})
    {
      ghost var m := ram[..];
      RetagTiled(blocks, k, size, used);
      assert Placed(blocks, k, size);
      SetUsed(ptr, used);
      FlagEncodes(TableOf(m), Headers(), blocks, k, size, used);
      blocks := blocks[k := Block(ptr, used)];
    }

    /** mem->next of the block at `ptr`. */
    method NextOf(ptr: nat, ghost k: nat) returns (next: nat)
      requires Tiled(blocks, size) && ram.Length == size + HDR && Encodes(Headers(), blocks, size)
      requires k < |blocks| && ptr == blocks[k].addr
      ensures next == AddrAt(blocks, k + 1, size)
    {
      assert EncodesAt(Headers(), blocks, k, size);
      assert Placed(blocks, k, size);
      next := Read(ptr).next;
    }

    /** Hand out free block `k`, splitting it when the rest can hold a block. */
    method TakeBlock(ptr: nat, need: nat, ghost k: nat)
      requires Linked() && k < |blocks| && ptr == blocks[k].addr
      requires need % ALIGN == 0 && need >= MIN_DATA && Fits(blocks, k, size, need)
      modifies ram, this`blocks
      ensures blocks == Take(old(blocks), k, size, need) && Linked()
      ensures PayloadsKept(old(ram[..]), ram[..], old(blocks), size)
    {
      ghost var m, bs := ram[..], blocks;
      TakeWellFormed(bs, k, size, need);
      var next := NextOf(ptr, k);
      if next - (ptr + HDR) >= need + HDR + MIN_DATA {
        ghost var ps := {ptr + HDR + need, ptr, next};
        Carve(ptr, need, k);
        ghost var m1 := ram[..];
        Flag(ptr, true, k);
        BytesCompose(m, m1, ram[..], ps, {ptr});
        assert ps + {ptr} == ps;
        CarveKeeps(m, ram[..], bs, k, need, size);
      } else {
        Flag(ptr, true, k);
        FlagKeeps(m, ram[..], bs, k, size);
      }
    }

    /** After block `k`, the lowest free one, has been handed out: find the next free block. */
    method AdvanceLfree(ghost k: nat)
      requires Linked() && k < |blocks| && lfree == blocks[k].addr
      requires forall j | 0 <= j < k :: blocks[j].used
      modifies this`lfree
      ensures lfree == AddrAt(blocks, FirstFree(blocks, 0), size)
    {
      var cur := lfree;
      ghost var i := k;
      var used := UsedAt(cur, i);
      while used && cur != size
        invariant i <= |blocks| && cur == AddrAt(blocks, i, size)
        invariant i < |blocks| ==> used == blocks[i].used && cur != size
        invariant forall j | 0 <= j < i :: blocks[j].used
        decreases |blocks| - i
      {
        cur := NextOf(cur, i);
        i := i + 1;
        used := UsedAt(cur, i);
        assert i < |blocks| ==> Placed(blocks, i, size);
      }
      FirstFreeUnique(blocks, i);
      lfree := cur;
    }

    /** mem->used of block `k`, or of the end marker. */
    method UsedAt(ptr: nat, ghost k: nat) returns (used: bool)
      requires Tiled(blocks, size) && ram.Length == size + HDR && Encodes(Headers(), blocks, size)
      requires k <= |blocks| && ptr == AddrAt(blocks, k, size)
      ensures used == (k == |blocks| || blocks[k].used)
      ensures k < |blocks| ==> ptr != size
    {
      if k < |blocks| {
        assert EncodesAt(Headers(), blocks, k, size);
        assert Placed(blocks, k, size);
      }
      used := Read(ptr).used != 0;
    }

    /** The search of mem_malloc: start at lfree, stop where nothing can fit any more. */
    method FindFit(need: nat) returns (found: bool, ptr: nat, ghost k: nat)
      requires Valid() && MIN_DATA <= need <= size
      ensures k == FirstFit(blocks, size, need, 0)
      ensures found <==> FirstFit(blocks, size, need, 0) < |blocks|
      ensures found ==> ptr == blocks[FirstFit(blocks, size, need, 0)].addr
    {
      ptr := lfree;
      k := FirstFree(blocks, 0);
      found := false;
      while ptr < size - need
        invariant 0 <= k <= |blocks| && ptr == AddrAt(blocks, k, size)
        invariant forall j | 0 <= j < k :: !Fits(blocks, j, size, need)
        decreases |blocks| - k
      {
        var used := UsedAt(ptr, k);
        var next := NextOf(ptr, k);
        if !used && next - (ptr + HDR) >= need {
          FirstFitUnique(blocks, size, need, k);
          found := true;
          return;
        }
        ptr := next;
        k := k + 1;
      }
      NoneFitsAbove(blocks, size, need, k);
      k := |blocks|;
      FirstFitUnique(blocks, size, need, k);
    }

    /** The part of mem_malloc under the heap lock, for a rounded size. */
    method MallocRounded(need: nat) returns (r: Ptr)
      requires Valid() && need % ALIGN == 0 && MIN_DATA <= need <= size
      modifies this`lfree, this`blocks, ram
      ensures Valid()
      ensures var k := FirstFit(old(blocks), size, need, 0);
              if k == |old(blocks)| then r == Null && blocks == old(blocks)
              else r == At(old(blocks)[k].addr + HDR) && blocks == Take(old(blocks), k, size, need)
      ensures PayloadsKept(old(ram[..]), ram[..], old(blocks), size)
    {
      var found, ptr, k := FindFit(need);
      if !found { return Null; }
      TakeLowest(blocks, k, size, need);
      TakeBlock(ptr, need, k);
      if ptr == lfree {
        AdvanceLfree(k);
      }
      return At(ptr + HDR);
    }

    /** mem_malloc. */
    method Malloc(n: nat) returns (r: Ptr)
      requires Valid() && n < TWO32
      modifies this`lfree, this`blocks, ram
      ensures Valid() && blocks == Mallocked(old(blocks), size, n) && r == MallocPtr(old(blocks), size, n)
      ensures MallocDone(old(blocks), blocks, size, n, r)
      ensures PayloadsKept(old(ram[..]), ram[..], old(blocks), size)
    {
      MallocLive(blocks, size, n);
      if n == 0 { return Null; }
      var need := AlignUp(n);
      if need < MIN_DATA { need := MIN_DATA; }
      if need > size || need < n { return Null; }
      r := MallocRounded(need);
    }

    /** mem->prev of the block at `ptr`. */
    method PrevOf(ptr: nat, ghost k: nat) returns (prev: nat)
      requires Tiled(blocks, size) && ram.Length == size + HDR && Encodes(Headers(), blocks, size)
      requires k < |blocks| && ptr == blocks[k].addr
      ensures prev == if k == 0 then 0 else blocks[k - 1].addr
    {
      assert EncodesAt(Headers(), blocks, k, size);
      assert Placed(blocks, k, size);
      prev := Read(ptr).prev;
    }

    /** Drop the header of block `k + 1`, the successor of the one at `ptr`. */
    method Absorb(ptr: nat, next: nat, ghost k: nat)
      requires Tiled(blocks, size) && ram.Length == size + HDR && Encodes(Headers(), blocks, size)
      requires k + 1 < |blocks| && ptr == blocks[k].addr && next == AddrAt(blocks, k + 2, size)
      modifies ram, this`blocks
      ensures blocks == Merge(old(blocks), k + 1) && Tiled(blocks, size) && Encodes(Headers(), blocks, size)
      ensures BytesKeptBut(old(ram[..]), ram[..], Starts(old(blocks), size))
      ensures Starts(blocks, size) <= Starts(old(blocks), size)
      ensures forall q | q in {old(blocks)[k].addr, old(blocks)[k + 1].addr} ::
                q in Headers() && q in old(Headers()) && Headers()[q].used == old(Headers())[q].used
    {
      ghost var m, bs := ram[..], blocks;
      MergePlaces(bs, k, size);
      MergeTiled(bs, k + 1, size);
      MergeStarts(bs, k + 1, size);
      LinkOut(ptr, next);
      LinkOutEncodes(TableOf(m), Headers(), bs, k, size);
      BytesWiden(m, ram[..], {ptr, next}, Starts(bs, size));
      assert EncodesAt(TableOf(m), bs, k + 1, size);
      BlockApart(bs, k + 1, k, size); BlockApart(bs, k + 1, k + 2, size);
      LinkOutUsed(TableOf(m), Headers(), ptr, next, size, bs[k + 1].addr);
      blocks := Merge(bs, k + 1);
    }

    /** The first half of plug_holes: absorb a free successor. If lfree still names the
        successor it is moved down to the block that absorbs it. */
    method PlugNext(mem: nat, ghost k: nat)
      requires Tiled(blocks, size) && ram.Length == size + HDR && Encodes(Headers(), blocks, size)
      requires k < |blocks| && mem == blocks[k].addr && !blocks[k].used
      requires lfree == AddrAt(blocks, FirstFree(blocks, 0), size) ||
               (FirstFree(blocks, 0) == k && k + 1 < |blocks| && !blocks[k + 1].used && lfree == blocks[k + 1].addr)
      modifies ram, this`blocks, this`lfree
      ensures blocks == PlugForward(old(blocks), k) && Tiled(blocks, size)
      ensures Starts(blocks, size) <= Starts(old(blocks), size)
      ensures Encodes(Headers(), blocks, size) && lfree == AddrAt(blocks, FirstFree(blocks, 0), size)
      ensures BytesKeptBut(old(ram[..]), ram[..], Starts(old(blocks), size))
      ensures mem in Headers() && Headers()[mem].used == 0
    {
      ghost var bs := blocks;
      assert EncodesAt(Headers(), bs, k, size);
      BytesSame(ram[..], Starts(bs, size));
      assert k + 1 < |bs| ==> Before(bs, k, k + 1) && Placed(bs, k + 1, size);
      var nmem := NextOf(mem, k);
      var nused := UsedAt(nmem, k + 1);
      if mem != nmem && !nused && nmem != size {
        MergeLowest(bs, k + 1, size);
        if lfree == nmem {
          lfree := mem;
        }
        var nnext := NextOf(nmem, k + 1);
        Absorb(mem, nnext, k);
      }
    }

    /** The second half of plug_holes: let a free predecessor absorb the block. */
    method PlugPrev(mem: nat, ghost k: nat)
      requires Tiled(blocks, size) && ram.Length == size + HDR && Encodes(Headers(), blocks, size)
      requires k < |blocks| && mem == blocks[k].addr && !blocks[k].used
      requires lfree == AddrAt(blocks, FirstFree(blocks, 0), size) ||
               (k > 0 && FirstFree(blocks, 0) == k - 1 && lfree == mem)
      modifies ram, this`blocks, this`lfree
      ensures blocks == PlugBackward(old(blocks), k) && Tiled(blocks, size)
      ensures Starts(blocks, size) <= Starts(old(blocks), size)
      ensures Encodes(Headers(), blocks, size) && lfree == AddrAt(blocks, FirstFree(blocks, 0), size)
      ensures BytesKeptBut(old(ram[..]), ram[..], Starts(old(blocks), size))
      ensures mem in Headers() && Headers()[mem].used == 0
    {
      ghost var bs := blocks;
      assert EncodesAt(Headers(), bs, k, size);
      BytesSame(ram[..], Starts(bs, size));
      assert k > 0 ==> Before(bs, k - 1, k);
      var pmem := PrevOf(mem, k);
      if pmem != mem {
        var pused := UsedAt(pmem, k - 1);
        if !pused {
          MergeLowest(bs, k, size);
          if lfree == mem {
            lfree := pmem;
          }
          var next := NextOf(mem, k);
          Absorb(pmem, next, k - 1);
        }
      }
    }

    /** plug_holes. */
    method PlugHoles(mem: nat, ghost k: nat)
      requires Tiled(blocks, size) && ram.Length == size + HDR && Encodes(Headers(), blocks, size)
      requires k < |blocks| && mem == blocks[k].addr && !blocks[k].used
      requires lfree == AddrAt(blocks, FirstFree(blocks, 0), size)
      modifies ram, this`blocks, this`lfree
      ensures blocks == PlugBackward(PlugForward(old(blocks), k), k)
      ensures Encodes(Headers(), blocks, size) && lfree == AddrAt(blocks, FirstFree(blocks, 0), size)
      ensures BytesKeptBut(old(ram[..]), ram[..], Starts(old(blocks), size))
      ensures mem in Headers() && Headers()[mem].used == 0
    {
      ghost var m, ps := ram[..], Starts(blocks, size);
      PlugNext(mem, k);
      ghost var m1, ps1 := ram[..], Starts(blocks, size);
      PlugPrev(mem, k);
      BytesCompose(m, m1, ram[..], ps, ps1);
      BytesWiden(m, ram[..], ps + ps1, ps);
    }

    /** mem_link_valid. */
    method MemLinkValid(mem: nat) returns (ok: bool)
      requires ram.Length == size + HDR && mem <= size
      ensures ok == LinkValid(Headers(), size, mem)
    {
      var next, prev := Read(mem).next, Read(mem).prev;
      if next > size || prev > size { return false; }
      if prev != mem && Read(prev).next != mem { return false; }
      if next != size && Read(next).prev != mem { return false; }
      return true;
    }

    /** mem_free. The one demand on the caller is that foreign bytes do not look like a
        header: a pointer that passes all checks is one that mem_malloc handed out. */
    method Free(rmem: Ptr) returns (freed: bool)
      requires Valid()
      requires rmem.At? && FreeAccepts(Headers(), size, rmem.off) ==> Find(blocks, rmem.off, 0) < |blocks|
      modifies this`lfree, this`blocks, ram
      ensures Valid()
      ensures freed <==> rmem.At? && Find(old(blocks), rmem.off, 0) < |old(blocks)|
      ensures blocks == if rmem.At? then Freed(old(blocks), rmem.off) else old(blocks)
      ensures PayloadsKept(old(ram[..]), ram[..], old(blocks), size)
      ensures freed ==> !FreeAccepts(Headers(), size, rmem.off)
    {
      if rmem == Null { return false; }
      ghost var k := Find(blocks, rmem.off, 0);
      if k < |blocks| { LiveAccepted(Headers(), blocks, k, size); }
      freed := Accepts(rmem.off);
      if freed { FreeBlock(rmem.off - HDR, k); }
    }

    /** The tests at the start of mem_free. */
    method Accepts(off: int) returns (ok: bool)
      requires ram.Length == size + HDR
      ensures ok == FreeAccepts(Headers(), size, off)
    {
      if off % ALIGN != 0 { return false; }
      var mem := off - HDR;
      if mem < 0 || off + MIN_DATA > size { return false; }
      if Read(mem).used == 0 { return false; }
      ok := MemLinkValid(mem);
    }

    /** The part of mem_free that changes the heap. */
    method FreeBlock(mem: nat, ghost k: nat)
      requires Valid() && k < |blocks| && mem == blocks[k].addr && blocks[k].used
      modifies this`lfree, this`blocks, ram
      ensures Valid() && blocks == Release(old(blocks), k)
      ensures PayloadsKept(old(ram[..]), ram[..], old(blocks), size)
      ensures mem in Headers() && Headers()[mem].used == 0
    {
      ghost var m, bs := ram[..], blocks;
      ReleaseWellFormed(bs, k, size);
      FreedLowest(bs, k, size);
      Flag(mem, false, k);
      if mem < lfree {
        lfree := mem;
      }

      ghost var m1 := ram[..];
      RetagStarts(bs, k, size, false);
      PlugHoles(mem, k);
      BytesCompose(m, m1, ram[..], {mem}, Starts(bs, size));
      assert mem == AddrAt(bs, k, size);
      BytesWiden(m, ram[..], {mem} + Starts(bs, size), Starts(bs, size));
      StartsKeep(m, ram[..], bs, size);
    }

    /** The first branch of mem_trim: move the free successor down. */
    method MoveNext(ptr: nat, next: nat, need: nat, ghost k: nat)
      requires Tiled(blocks, size) && ram.Length == size + HDR && Encodes(Headers(), blocks, size)
      requires k + 1 < |blocks| && ptr == blocks[k].addr && next == AddrAt(blocks, k + 2, size)
      requires !blocks[k + 1].used && need % ALIGN == 0 && MIN_DATA <= need < Capacity(blocks, k, size)
      modifies ram, this`blocks
      ensures blocks == old(blocks)[k + 1 := Block(ptr + HDR + need, false)] && Encodes(Headers(), blocks, size)
      ensures BytesKeptBut(old(ram[..]), ram[..], {ptr + HDR + need, ptr, next})
    {
      ghost var m, bs := ram[..], blocks;
      MovePlaces(bs, k, need, size);
      var ptr2 := ptr + HDR + need;
      LinkIn(ptr, ptr2, next);
      MoveEncodes(TableOf(m), Headers(), bs, k, need, size);
      blocks := bs[k + 1 := Block(ptr2, false)];
    }

    /** mem_trim of a live pointer. `tripped` reports the assertion inside the second branch,
        which objects to a block that ends at the end of the heap. */
    method Trim(off: nat, n: nat) returns (r: Ptr, tripped: bool)
      requires Valid() && n < TWO32 && Find(blocks, off, 0) < |blocks|
      modifies this`lfree, this`blocks, ram
      ensures Valid() && blocks == Trimmed(old(blocks), size, off, n)
      ensures var k := Find(old(blocks), off, 0);
              && r == (if n > Capacity(old(blocks), k, size) then Null else At(off))
              && (r == At(off) ==> TrimKept(old(ram[..]), ram[..], old(blocks), k, Rounded(n), size))
              && (r == Null ==> ram[..] == old(ram[..]) && blocks == old(blocks))
              && (tripped <==> k + 1 == |old(blocks)| && !Refused(n, size) && Splits(old(blocks), k, size, Rounded(n)))
    {
      ghost var k := Find(blocks, off, 0);
      TrimTooMuch(blocks, size, k, n);
      var need := AlignUp(n);
      tripped := false;
      if need < MIN_DATA { need := MIN_DATA; }
      if need > size || need < n { return Null, false; }
      var ptr := off - HDR;
      var next := NextOf(ptr, k);
      var capacity := next - ptr - HDR;
      if need > capacity { return Null, false; }
      r := At(off);
      if need == capacity { return; }
      tripped := TrimBlock(ptr, next, need, k);
    }

    /** Second branch of mem_trim: cut off a new free block. */
    method CutOff(ptr: nat, need: nat, ghost k: nat)
      requires Valid() && k < |blocks| && blocks[k].used && ptr == blocks[k].addr
      requires k + 1 < |blocks| ==> blocks[k + 1].used
      requires need % ALIGN == 0 && MIN_DATA <= need && Splits(blocks, k, size, need)
      modifies this`lfree, this`blocks, ram
      ensures Valid() && blocks == Split(old(blocks), k, need)
      ensures TrimKept(old(ram[..]), ram[..], old(blocks), k, need, size)
    {
      ghost var m, bs := ram[..], blocks;
      SplitWellFormed(bs, k, size, need);
      SplitLowest(bs, k, need, size);
      var ptr2 := ptr + HDR + need;
      if ptr2 < lfree {
        lfree := ptr2;
      }
      Carve(ptr, need, k);
      CarveKeeps(m, ram[..], bs, k, need, size);
      assert Split(bs, k, need) == Cut(bs, k, need);
    }

    /** First branch of mem_trim: move a free successor down, and lfree with it. */
    method MoveDown(ptr: nat, next: nat, need: nat, ghost k: nat)
      requires Valid() && k + 1 < |blocks| && blocks[k].used && !blocks[k + 1].used
      requires ptr == blocks[k].addr && next == blocks[k + 1].addr
      requires need % ALIGN == 0 && MIN_DATA <= need < Capacity(blocks, k, size)
      modifies this`lfree, this`blocks, ram
      ensures Valid() && blocks == Shrink(old(blocks), k, size, need)
      ensures TrimKept(old(ram[..]), ram[..], old(blocks), k, need, size)
    {
      ghost var m, bs := ram[..], blocks;
      MoveFacts(bs, k, need, size);
      var next2 := NextOf(next, k + 1);
      var ptr2 := ptr + HDR + need;
      if lfree == next {
        lfree := ptr2;
      }
      MoveNext(ptr, next2, need, k);
      MoveKeeps(m, ram[..], bs, k, need, size);
    }

    method TrimBlock(ptr: nat, next: nat, need: nat, ghost k: nat) returns (tripped: bool)
      requires Valid() && k < |blocks| && blocks[k].used && ptr == blocks[k].addr && next == AddrAt(blocks, k + 1, size)
      requires need % ALIGN == 0 && MIN_DATA <= need < Capacity(blocks, k, size)
      modifies this`lfree, this`blocks, ram
      ensures Valid() && blocks == Shrink(old(blocks), k, size, need)
      ensures TrimKept(old(ram[..]), ram[..], old(blocks), k, need, size)
      ensures tripped <==> k + 1 == |old(blocks)| && Splits(old(blocks), k, size, need)
    {
      tripped := false;
      assert k + 1 < |blocks| ==> Placed(blocks, k + 1, size);
      var used := UsedAt(next, k + 1);
      if !used {
        MoveDown(ptr, next, need, k);
      } else if need + HDR + MIN_DATA <= next - ptr - HDR {
        tripped := next == size;
        CutOff(ptr, need, k);
      }
    }

    /** mem_init. */
    constructor (size: nat)
      requires HeapSize(size)
      ensures Valid() && this.size == size && blocks == INITIAL && fresh(ram)
    {
      this.size := size;
      ram := new byte[size + HDR];
      lfree := 0;
      blocks := INITIAL;
      new;
      SetHeader(0, Hdr(size, 0, 0));
      ghost var t := Headers();
      SetHeader(size, Hdr(size, size, 1));
      KeptAt(t, Headers(), size, 0);
      InitialWellFormed(size);
    }

    /** The owner of block `k` writes one of its bytes. */
    method WriteData(k: nat, i: nat, b: byte)
      requires Valid() && k < |blocks| && blocks[k].used
      requires blocks[k].addr + HDR <= i < AddrAt(blocks, k + 1, size)
      modifies ram
      ensures Valid() && i < ram.Length && ram[i] == b
      ensures forall j | 0 <= j < ram.Length && j != i :: ram[j] == old(ram[j])
    {
      ghost var m := ram[..];
      assert k + 1 < |blocks| ==> Placed(blocks, k + 1, size);
      ram[i] := b;
      DataWriteEncodes(m, ram[..], blocks, k, i, size);
    }
  }
}
