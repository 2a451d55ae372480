/** Page frames as the machine holds them: bytes, or 512 descriptor words. */
module PhysicalMemory {
  import opened PageTables
  import opened Descriptors

  /** A placement of the frames at distinct page addresses. */
  type Layout = m: Placement | PlacementOk(m) ghost witness (ZoneZeroOk(); ZoneZero())

  datatype Frame = TableFrame(words: seq<bv64>) | DataFrame(bytes: seq<Byte>)

  ghost function Meaning(m: Placement, x: Frame): (r: Content)
    ensures r.Table? <==> x.TableFrame?
    ensures x.TableFrame? ==>
              |r.entries| == |x.words| && forall i | 0 <= i < |x.words| :: r.entries[i] == Decode(m, x.words[i])
    ensures x.DataFrame? ==> r == Data(x.bytes)
  {
    match x
    case TableFrame(words) => Table(seq(|words|, i requires 0 <= i < |words| => Decode(m, words[i])))
    case DataFrame(bytes) => Data(bytes)
  }

  ghost function Contents(m: Placement, frames: seq<Frame>): (r: seq<Content>)
    ensures |r| == |frames| && forall f | 0 <= f < |frames| :: r[f] == Meaning(m, frames[f])
  {
    seq(|frames|, f requires 0 <= f < |frames| => Meaning(m, frames[f]))
  }

  /** Storing a frame, or a word of a table, changes its meaning and no other. */
  lemma ContentsStore(m: Placement, frames: seq<Frame>, f: int, x: Frame)
    requires 0 <= f < |frames|
    ensures Contents(m, frames[f := x]) == Contents(m, frames)[f := Meaning(m, x)]
  {
  }

  lemma MeaningStore(m: Placement, words: seq<bv64>, i: int, w: bv64)
    requires 0 <= i < |words|
    ensures Meaning(m, TableFrame(words[i := w])) == Table(Meaning(m, TableFrame(words)).entries[i := Decode(m, w)])
  {
  }

  lemma MeaningZero(m: Placement)
    ensures Meaning(m, TableFrame(seq(NR_ENTRIES, _ => 0))) == EmptyTable()
  {
    ZeroWord(m);
  }

  /** The MMU's walk over the words, from the table in frame `t` on: it refuses
      words that are no entries and, at the end, all but user pages. */
  function Translate(m: Placement, frames: seq<Frame>, t: int, path: seq<int>): Desc
    decreases |path|
  {
    if path == [] || !(0 <= t < |frames|) || frames[t].DataFrame? || !(0 <= path[0] < |frames[t].words|) then EMPTY
    else
      var w := frames[t].words[path[0]];
      if |path| > 1 then if IsEntry(w) then Translate(m, frames, m.frame(w & PD_PAGE_MASK), path[1..]) else EMPTY
      else if IsUserPage(w) then Decode(m, w)
      else EMPTY
  }

  /** It finds what a walk over the meanings finds. */
  lemma {:induction false} TranslateIsResolve(m: Placement, frames: seq<Frame>, t: int, path: seq<int>)
    ensures Translate(m, frames, t, path) == Resolve(Contents(m, frames), t, path)
    decreases |path|
  {
    if path == [] || !(0 <= t < |frames|) || frames[t].DataFrame? || !(0 <= path[0] < |frames[t].words|) {
    } else {
      var w := frames[t].words[path[0]];
      var d := Decode(m, w);
      assert Contents(m, frames)[t] == Meaning(m, frames[t]);
      DecodeKinds(m, w);
      if |path| > 1 && d.valid && !d.kind.Unusable? {
        TranslateIsResolve(m, frames, d.frame, path[1..]);
      }
    }
  }

  /** Memory as an array of frames. Every word the kernel stores is computed as
      the source computes it; the contracts say what it means. */
  class Frames {
    const place: Layout
    const a: array<Frame>

    constructor (place: Layout)
      ensures this.place == place && fresh(a) && a.Length == NR_FRAMES
    {
      this.place := place;
      a := new Frame[NR_FRAMES](_ => DataFrame([]));
    }

    ghost function Mem(): (r: seq<Content>)
      reads a
      ensures |r| == a.Length
    {
      Contents(place, a[..])
    }

    ghost predicate HasEntry(t: int, i: int)
      reads a
    {
      0 <= t < a.Length && Mem()[t].Table? && 0 <= i < |Mem()[t].entries|
    }

    /** `old` memory with entry `i` of table `t` set to `d`. */
    ghost function With(mem: seq<Content>, t: int, i: int, d: Desc): seq<Content>
      requires 0 <= t < |mem| && mem[t].Table? && 0 <= i < |mem[t].entries|
    {
      mem[t := Table(mem[t].entries[i := d])]
    }

    method StoreData(f: int, bytes: seq<Byte>)
      requires 0 <= f < a.Length
      modifies a
      ensures Mem() == old(Mem())[f := Data(bytes)]
    {
      ContentsStore(place, a[..], f, DataFrame(bytes));
      a[f] := DataFrame(bytes);
    }

    method ReadData(f: int) returns (bytes: seq<Byte>)
      requires 0 <= f < a.Length && Mem()[f].Data?
      ensures bytes == Mem()[f].bytes
    {
      bytes := a[f].bytes;
    }

    /** memset of a whole frame to zero. */
    method ClearFrame(f: int)
      requires 0 <= f < a.Length
      modifies a
      ensures Mem() == old(Mem())[f := EmptyTable()]
    {
      var zeros := TableFrame(seq(NR_ENTRIES, _ => 0));
      ContentsStore(place, a[..], f, zeros);
      MeaningZero(place);
      a[f] := zeros;
    }

    method ReadEntry(t: int, i: int) returns (d: Desc)
      requires HasEntry(t, i)
      ensures d == Mem()[t].entries[i]
    {
      d := Decode(place, a[t].words[i]);
    }

    method StoreWord(t: int, i: int, w: bv64)
      requires HasEntry(t, i)
      modifies a
      ensures Mem() == With(old(Mem()), t, i, Decode(place, w))
      ensures a[t].TableFrame? && i < |a[t].words| && a[t].words[i] == w
    {
      var x := TableFrame(a[t].words[i := w]);
      ContentsStore(place, a[..], t, x);
      MeaningStore(place, a[t].words, i, w);
      a[t] := x;
    }

    method StoreTable(t: int, i: int, c: int)
      requires HasEntry(t, i) && 0 <= c < NR_FRAMES
      modifies a
      ensures Mem() == With(old(Mem()), t, i, TableDesc(c))
    {
      TableWord(place, c);
      StoreWord(t, i, place.addr(c) | PD_TABLE);
    }

    method StoreMapped(t: int, i: int, f: int, attr: Attr)
      requires HasEntry(t, i) && 0 <= f < NR_FRAMES
      modifies a
      ensures Mem() == With(old(Mem()), t, i, MappedDesc(f, attr))
    {
      ghost var low := MapWord(place, f, attr);
      StoreWord(t, i, place.addr(f) | MapFlags(attr));
    }

    method StoreZero(t: int, i: int)
      requires HasEntry(t, i)
      modifies a
      ensures Mem() == With(old(Mem()), t, i, EMPTY)
    {
      ZeroWord(place);
      StoreWord(t, i, 0);
    }

    /** Entry `i` of tables `t` and `u` get the shared word of `t`'s. */
    method StoreShared(t: int, u: int, i: int)
      requires HasEntry(t, i) && HasEntry(u, i) && t != u && Mem()[t].entries[i].valid
      modifies a
      ensures var d := SharedDesc(old(Mem())[t].entries[i].frame);
              Mem() == With(With(old(Mem()), u, i, d), t, i, d)
    {
      var w := a[t].words[i];
      ShareWordMeans(place, w);
      StoreWord(u, i, ShareWord(w));
      StoreWord(t, i, ShareWord(w));
    }

    /** A private copy in frame `f`, which may be written. */
    method StoreCopy(t: int, i: int, f: int)
      requires HasEntry(t, i) && 0 <= f < NR_FRAMES && Mem()[t].entries[i].kind.UserPage?
      modifies a
      ensures Mem() == With(old(Mem()), t, i, PrivateDesc(f))
      ensures a[t].TableFrame? && i < |a[t].words| && old(a[t]).TableFrame? && i < |old(a[t]).words|
      ensures a[t].words[i] & 0xfff == old(a[t]).words[i] & 0xf7f && a[t].words[i] & PD_PAGE_MASK == place.addr(f)
    {
      CopyWordMeans(place, f, a[t].words[i]);
      CopyWordKeeps(place, f, a[t].words[i]);
      StoreWord(t, i, CopyWord(place, f, a[t].words[i]));
    }

    method StoreReclaimed(t: int, i: int)
      requires HasEntry(t, i) && Mem()[t].entries[i].valid
      modifies a
      ensures Mem() == With(old(Mem()), t, i, old(Mem())[t].entries[i].(cow := false, readOnly := false))
      ensures a[t].TableFrame? && i < |a[t].words| && old(a[t]).TableFrame? && i < |old(a[t]).words|
      ensures a[t].words[i] | PD_COW_PAGE | PD_RDONLY == old(a[t]).words[i] | PD_COW_PAGE | PD_RDONLY
    {
      ReclaimWordKeeps(a[t].words[i]);
      ReclaimWordMeans(place, a[t].words[i]);
      StoreWord(t, i, ReclaimWord(a[t].words[i]));
    }

    method Walk(t: int, path: seq<int>) returns (d: Desc)
      ensures d == Resolve(Mem(), t, path)
    {
      TranslateIsResolve(place, a[..], t, path);
      d := Translate(place, a[..], t, path);
    }
  }
}
