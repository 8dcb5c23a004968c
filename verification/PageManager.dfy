/** Pages of the file: reading, writing, allocation and the two barriers
    (pagemanager/page_manager.go, pagemanager/page_manager_linux.go). */
module PageManager {
  import opened Bytes
  import opened PageEdit
  import opened Buffer
  import opened CowNodes
  import opened Disk
  import opened MasterCodec

  /** The file grows by this many pages at a time. */
  const PREALLOCATED := 80

  /** Page numbers stay below this, so that the 32-bit byte offset of the end of a page does not wrap. */
  const PAGE_LIMIT := 0xf_ffff

  lemma Extended(log: seq<Event>, mmap: seq<seq<byte>>, n: nat)
    requires forall p: nat :: Current(log, p) == if p < |mmap| then mmap[p] else Zeros(PAGE_SIZE)
    ensures var more := mmap + seq(n, _ => Zeros(PAGE_SIZE));
            forall p: nat :: Current(log, p) == if p < |more| then more[p] else Zeros(PAGE_SIZE)
  {
  }

  class PageManager {
    const sync: bool
    /** The mapped file, page by page; currentPageNum and endPageNum. */
    var mmap: seq<seq<byte>>
    var cur: u32
    var end: u32

    /** The pages read so far, in order. */
    ghost var seen: seq<nat>

    /** The root and free list of the master page, the pages handed out since the last commit, and what the
        file has seen. */
    ghost var root: nat
    ghost var fl: seq<nat>
    ghost var got: seq<nat>
    ghost var log: seq<Event>

    /** Nothing allocated yet. */
    ghost predicate Fresh()
      reads `mmap, `cur, `end, `log, `got, `root, `fl
    {
      mmap == [] && cur == end == 0 && log == [] && got == [] && root == 0 && fl == []
    }

    ghost predicate Valid()
      reads `mmap, `cur, `end, `log, `root, `fl
    {
      && 1 <= cur <= end == |mmap| && cur <= PAGE_LIMIT
      && (forall p | 0 <= p < end :: |mmap[p]| == PAGE_SIZE)
      && MasterWF(root, fl) && |fl| < MASTER_CAPACITY && mmap[0] == MasterImage(root, fl)
      && forall p: nat :: Current(log, p) == if p < end then mmap[p] else Zeros(PAGE_SIZE)
    }

    /** Pages have 32-bit numbers. */
    lemma Bounded()
      requires Valid()
      ensures |mmap| <= 0x1_0000_0000
    {
    }

    lemma HasMaster()
      requires Valid()
      ensures |mmap| > 0 && end > 0 && |fl| < MASTER_CAPACITY && MasterWF(root, fl) && mmap[0] == MasterImage(root, fl)
    {
    }

    lemma Mirrored()
      requires Valid()
      ensures forall p | 0 <= p < |mmap| :: Current(log, p) == mmap[p]
    {
    }

    /** The allocator as the copy-on-write algorithm sees it. */
    ghost function Alloc(pend: seq<nat>): CowNodes.Alloc
      reads `cur, `got, `fl
    {
      CowNodes.Alloc(fl, cur, pend, got)
    }

    constructor (sync: bool)
      ensures Fresh() && this.sync == sync
    {
      this.sync := sync;
      mmap, cur, end := [], 0, 0;
      seen, root, fl, got, log := [], 0, [], [], [];
    }

    /** A copy of a page; null stands for io.EOF. */
    method Read(pageNum: u32) returns (buf: array?<byte>)
      requires pageNum < |mmap| || (Fresh() && pageNum == 0)
      requires Fresh() || Valid()
      modifies this`seen
      ensures seen == old(seen) + [pageNum]
      ensures buf == null <==> Fresh()
      ensures buf != null ==> fresh(buf) && buf[..] == mmap[pageNum]
    {
      seen := seen + [pageNum as int];
      if end == 0 && pageNum == 0 {
        return null;
      }
      var data := mmap[pageNum];
      var copy := new byte[|data|](i requires 0 <= i < |data| => data[i]);
      return copy;
    }

    /** A write to page 0 says which root and list it stores. */
    method Write(pageNum: u32, buf: array<byte>, ghost r: nat, ghost f: seq<nat>)
      requires Valid() && pageNum < end && buf.Length == PAGE_SIZE
      requires if pageNum == 0 then MasterWF(r, f) && |f| < MASTER_CAPACITY && buf[..] == MasterImage(r, f)
               else r == root && f == fl
      modifies this`mmap, this`root, this`fl, this`log
      ensures Valid() && root == r && fl == f
      ensures mmap == old(mmap)[pageNum := buf[..]] && log == old(log) + [Wrote(pageNum, buf[..])]
    {
      hide MasterImage, MasterWF;
      LogLast(log, Wrote(pageNum, buf[..]));
      mmap := mmap[pageNum := buf[..]];
      root, fl := r, f;
      log := log + [Wrote(pageNum, buf[..])];
    }

    /** Barrier for the whole file, if the database was opened with it. */
    method Fsync()
      requires Valid()
      modifies this`log
      ensures Valid() && log == if sync then old(log) + [Flush] else old(log)
    {
      hide MasterImage, MasterWF;
      if sync {
        LogLast(log, Flush);
        log := log + [Flush];
      }
    }

    /** Barrier for the master page, unconditionally. */
    method MsyncMaster()
      requires Valid()
      modifies this`log
      ensures Valid() && log == old(log) + [FlushMaster]
    {
      hide MasterImage, MasterWF;
      LogLast(log, FlushMaster);
      log := log + [FlushMaster];
    }

    /** Pops the head of the free list by shifting the list in the master page. */
    method AllocateViaFreeList() returns (ok: bool, pageNum: u32)
      requires Valid()
      modifies this`mmap, this`root, this`fl, this`log, this`seen
      ensures Valid() && ok == (|old(fl)| > 0)
      ensures !ok ==> mmap == old(mmap) && root == old(root) && fl == old(fl) && log == old(log)
      ensures ok ==> && pageNum == old(fl)[0] && fl == old(fl)[1..] && root == old(root)
                     && mmap == old(mmap)[0 := MasterImage(root, fl)]
                     && log == old(log) + [Wrote(0, MasterImage(root, fl))]
    {
      hide Close, Put, MasterRaw, Get32, BE32, Current;
      ok, pageNum := false, 0;
      var masterPage := Read(0);
      MasterIsRaw(root, fl);
      ReadMaster(root, fl);
      var size := Get32(masterPage[..], 4);
      if size <= 0 {
        return;
      }
      ok, pageNum := true, Get32(masterPage[..], 8);
      PopHead(root, |fl|, fl);
      CloseGap(masterPage, 8, 4, PAGE_SIZE);
      PutLength(root, |fl|, |fl| - 1, fl[1..]);
      PutBytes(masterPage, 4, BE32(size - 1));
      MasterIsRaw(root, fl[1..]);
      Write(0, masterPage, root, fl[1..]);
    }

    /** The free list first, then the pages already in the file, then 80 new ones. */
    method Allocate() returns (pageNum: u32)
      requires Fresh() || (Valid() && (fl == [] ==> cur < PAGE_LIMIT))
      modifies this`mmap, this`cur, this`end, this`root, this`fl, this`got, this`log, this`seen
      ensures Valid() && root == old(root)
      ensures old(Fresh()) ==> pageNum == 0 && cur == 1 && end == 80 && fl == [] && got == [] && log == []
      ensures old(Valid()) ==>
                && pageNum == Next(old(Alloc([]))) && Alloc([]) == Take(old(Alloc([])))
                && end == (if old(fl) != [] || old(cur) < old(end) then old(end) else old(end) + 80)
                && forall p | 0 < p < old(end) :: mmap[p] == old(mmap)[p]
      ensures forall p | old(end) <= p < end :: mmap[p] == Zeros(PAGE_SIZE)
      ensures old(Valid()) ==>
                log == if old(fl) == [] then old(log) else old(log) + [Wrote(0, MasterImage(root, fl))]
    {
      hide MasterImage;
      if end != 0 {
        var ok;
        ok, pageNum := AllocateViaFreeList();
        if ok {
          got := got + [pageNum as int];
          return;
        }
      }
      if cur < end {
        pageNum := cur;
        got := got + [pageNum as int];
        cur := cur + 1;
        return;
      }
      if end == 0 {
        ZeroMaster();
      } else {
        got := got + [cur as int];
      }
      Extended(log, mmap, PREALLOCATED);
      mmap := mmap + seq(PREALLOCATED, _ => Zeros(PAGE_SIZE));
      end := end + PREALLOCATED;
      pageNum := cur;
      cur := cur + 1;
    }
  }

  lemma MasterIsRaw(root: nat, fl: seq<nat>)
    requires |fl| <= MASTER_CAPACITY
    ensures MasterImage(root, fl) == MasterRaw(root, |fl|, fl)
  {
  }
}
