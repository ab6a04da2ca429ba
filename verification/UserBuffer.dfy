/** Pinning a user buffer as a scatter list of pages (char_sgdma_map_user_buf_to_sgl). */
module UserBuffer {
  import opened Words
  import opened LinearCopy

  /** What get_user_pages_fast answers: an error, or the frames it pinned. */
  datatype Pin = PinError(rv: int) | Pinned(frames: seq<nat>)

  datatype SgPage = SgPage(frame: nat, offset: nat, length: nat)

  datatype MapResult = Mapped(sgl: seq<SgPage>) | Error(code: int)

  function Offset(buf: nat): nat { buf % 4096 }
  function PageBase(buf: nat): nat { buf - buf % 4096 }

  function PagesNr(buf: nat, len: nat): nat { U32((buf + len + 4095 - PageBase(buf)) / 4096) }

  /** The user addresses that a scatter list covers when entry i lies in the i-th page of the buffer. */
  function UserExtents(base: nat, sgl: seq<SgPage>): (r: seq<Extent>)
    ensures |r| == |sgl|
  {
    seq(|sgl|, i requires 0 <= i < |sgl| => Extent(base + 4096 * i + sgl[i].offset, sgl[i].length))
  }

  /** The bytes mapped once the first i pages are entered. */
  function Entered(buf: nat, len: nat, i: nat): nat {
    if i == 0 then 0 else Min(len, 4096 * i - Offset(buf))
  }

  /** The length that is left once the first i pages are entered, for any length of the buffer. */
  function PageLeft(buf: nat, len: nat, i: nat): (r: nat)
    ensures r <= len
  {
    if i == 0 then len
    else
      var left := PageLeft(buf, len, i - 1);
      left - Min(4096 - (buf + (len - left)) % 4096, U32(left))
  }

  lemma {:induction false} LeftBelow(buf: nat, len: nat, i: nat)
    requires len < 0x1_0000_0000 && i <= PagesNr(buf, len) && buf + len + 4095 < 0x1_0000_0000_0000_0000
    ensures PageLeft(buf, len, i) == len - Entered(buf, len, i)
    decreases i
  {
    if i > 0 {
      LeftBelow(buf, len, i - 1);
      hide PagesNr, U32, Offset;
      EntryStep(buf, len, i - 1, buf + Entered(buf, len, i - 1));
    }
  }

  /** From 4 GiB on the multiple of 4 GiB always stays. */
  lemma {:induction false} LeftAbove(buf: nat, len: nat, i: nat)
    requires len >= 0x1_0000_0000
    ensures PageLeft(buf, len, i) >= 0x1_0000_0000
    decreases i
  {
    if i > 0 {
      LeftAbove(buf, len, i - 1);
      var left := PageLeft(buf, len, i - 1);
      assert left - U32(left) >= 0x1_0000_0000;
    }
  }

  /** The page loop enters the whole buffer exactly below 4 GiB. */
  lemma LeftoverExactly(buf: nat, len: nat)
    requires buf + len + 4095 < 0x1_0000_0000_0000_0000 && PagesNr(buf, len) > 0
    ensures PageLeft(buf, len, PagesNr(buf, len)) == 0 <==> len < 0x1_0000_0000
  {
    hide PagesNr, PageLeft, Entered;
    if len < 0x1_0000_0000 {
      LeftBelow(buf, len, PagesNr(buf, len));
      LastPage(buf, len);
    } else {
      LeftAbove(buf, len, PagesNr(buf, len));
    }
  }

  /** The mapping succeeds exactly for a pinned, duplicate-free buffer shorter than 4 GiB; its
      entries then cover [buf, buf+len) in order, one page each. A longer buffer always ends in
      the leftover branch: the byte count of an entry is computed in 32 bits. */
  method MapUserBuf(buf: nat, len: nat, pin: Pin) returns (r: MapResult)
    requires buf + len + 4095 < 0x1_0000_0000_0000_0000
    requires pin.PinError? ==> pin.rv < 0
    ensures r.Mapped? <==> PagesNr(buf, len) != 0 && pin.Pinned? && |pin.frames| == PagesNr(buf, len)
                           && (forall i :: 1 <= i < |pin.frames| ==> pin.frames[i - 1] != pin.frames[i])
                           && len < 0x1_0000_0000
    ensures r.Error? ==> r.code < 0
    ensures PagesNr(buf, len) == 0 ==> r == Error(-EINVAL)
    ensures r.Mapped? ==>
              && |r.sgl| == PagesNr(buf, len)
              && Flatten(UserExtents(PageBase(buf), r.sgl)) == Range(buf, len)
              && forall k :: 0 <= k < |r.sgl| ==>
                   && r.sgl[k].frame == pin.frames[k] && r.sgl[k].offset == (if k == 0 then buf % 4096 else 0)
                   && (len > 0 ==> r.sgl[k].length > 0)
                   && (if k + 1 < |r.sgl| then r.sgl[k].offset + r.sgl[k].length == 4096
                       else r.sgl[k].offset + r.sgl[k].length <= 4096)
  {
    var pagesNr := PagesNr(buf, len);
    if pagesNr == 0 {
      return Error(-EINVAL);
    }
    if pin.PinError? {
      return Error(pin.rv);
    }
    if |pin.frames| != pagesNr {
      return Error(-EFAULT);
    }
    var dup := HasDuplicate(pin.frames);
    if dup {
      return Error(-EFAULT);
    }
    var left, sgl := FillPages(buf, len, pin.frames);
    if left > 0 {
      return Error(-EINVAL);
    }
    return Mapped(sgl);
  }

  method HasDuplicate(frames: seq<nat>) returns (dup: bool)
    requires |frames| > 0
    ensures dup <==> exists i :: 1 <= i < |frames| && frames[i - 1] == frames[i]
  {
    for i := 1 to |frames|
      invariant forall k :: 1 <= k < i && k < |frames| ==> frames[k - 1] != frames[k]
    {
      if frames[i - 1] == frames[i] {
        return true;
      }
    }
    return false;
  }

  /** One entry a page: the first starts where the buffer does, and all but the last end with the page. */
  ghost predicate PageEntries(sgl: seq<SgPage>, frames: seq<nat>, buf: nat, nonEmpty: bool)
    requires |sgl| <= |frames|
  {
    forall k :: 0 <= k < |sgl| ==>
                  && sgl[k].frame == frames[k]
                  && sgl[k].offset == (if k == 0 then buf % 4096 else 0)
                  && sgl[k].offset + sgl[k].length <= 4096
                  && (k + 1 < |frames| ==> sgl[k].offset + sgl[k].length == 4096)
                  && (nonEmpty ==> sgl[k].length > 0)
  }

  /** The page loop. `left` is the leftover length. */
  method FillPages(buf: nat, len: nat, frames: seq<nat>) returns (left: nat, sgl: seq<SgPage>)
    requires buf + len + 4095 < 0x1_0000_0000_0000_0000
    requires |frames| == PagesNr(buf, len) > 0
    ensures |sgl| == |frames|
    ensures left == PageLeft(buf, len, |frames|)
    ensures left == 0 <==> len < 0x1_0000_0000
    ensures len < 0x1_0000_0000 ==>
              Flatten(UserExtents(PageBase(buf), sgl)) == Range(buf, len) && PageEntries(sgl, frames, buf, len > 0)
  {
    hide PagesNr, PageBase, Offset, U32, Flatten, PageEntries, Entered, PageLeft, UserExtents, Range;
    sgl := [];
    var cur: nat := buf;
    left := len;
    NothingEntered(buf, len, frames);
    for i := 0 to |frames|
      invariant |sgl| == i && cur + left == buf + len && left == PageLeft(buf, len, i)
      invariant len < 0x1_0000_0000 ==> Flatten(UserExtents(PageBase(buf), sgl)) == Range(buf, len - left)
      invariant len < 0x1_0000_0000 ==> PageEntries(sgl, frames, buf, len > 0)
    {
      var offset := cur % 4096;
      var nbytes := Min(4096 - offset, U32(left));
      LeftStep(buf, len, i);
      if len < 0x1_0000_0000 {
        LeftBelow(buf, len, i);
        EntryStep(buf, len, i, cur);
        ExtentsSnoc(PageBase(buf), sgl, SgPage(frames[i], offset, nbytes));
        RangeSplit(buf, len - left, nbytes);
        EntriesSnoc(sgl, frames, buf, len > 0, SgPage(frames[i], offset, nbytes));
      }
      sgl := sgl + [SgPage(frames[i], offset, nbytes)];
      cur := cur + nbytes;
      left := left - nbytes;
    }
    LeftoverExactly(buf, len);
  }

  lemma NothingEntered(buf: nat, len: nat, frames: seq<nat>)
    ensures PageLeft(buf, len, 0) == len && PageEntries([], frames, buf, len > 0)
    ensures Flatten(UserExtents(PageBase(buf), [])) == Range(buf, 0)
  {
  }

  lemma LeftStep(buf: nat, len: nat, i: nat)
    ensures var left := PageLeft(buf, len, i);
            PageLeft(buf, len, i + 1) == left - Min(4096 - (buf + (len - left)) % 4096, U32(left))
  {
  }

  lemma EntriesSnoc(sgl: seq<SgPage>, frames: seq<nat>, buf: nat, nonEmpty: bool, e: SgPage)
    requires |sgl| < |frames| && PageEntries(sgl, frames, buf, nonEmpty)
    requires e.frame == frames[|sgl|] && e.offset + e.length <= 4096 && (nonEmpty ==> e.length > 0)
    requires e.offset == (if sgl == [] then buf % 4096 else 0)
    requires |sgl| + 1 < |frames| ==> e.offset + e.length == 4096
    ensures PageEntries(sgl + [e], frames, buf, nonEmpty)
  {
  }

  lemma EntryStep(buf: nat, len: nat, i: nat, cur: nat)
    requires buf + len + 4095 < 0x1_0000_0000_0000_0000
    requires len < 0x1_0000_0000 && i < PagesNr(buf, len) && cur == buf + Entered(buf, len, i)
    ensures var n := Min(4096 - cur % 4096, U32(len - Entered(buf, len, i)));
            && Entered(buf, len, i + 1) == Entered(buf, len, i) + n
            && (len > 0 ==> n > 0)
            && cur % 4096 == (if i == 0 then buf % 4096 else 0)
            && (i + 1 < PagesNr(buf, len) ==> cur % 4096 + n == 4096)
            && PageBase(buf) + 4096 * i + cur % 4096 == cur == U64(cur)
  {
    hide PagesNr, U32, U64;
    PagesExact(buf, len);
    SmallWords(len - Entered(buf, len, i), cur);
  }

  lemma SmallWords(x: nat, y: nat)
    ensures x < 0x1_0000_0000 ==> U32(x) == x
    ensures y < 0x1_0000_0000_0000_0000 ==> U64(y) == y
  {
  }

  /** The page count, when it does not wrap. */
  lemma PagesExact(buf: nat, len: nat)
    requires len < 0x1_0000_0000
    ensures var n := PagesNr(buf, len);
            Offset(buf) + len <= 4096 * n < Offset(buf) + len + 4096
  {
  }

  lemma LastPage(buf: nat, len: nat)
    requires len < 0x1_0000_0000 && PagesNr(buf, len) > 0
    ensures Entered(buf, len, PagesNr(buf, len)) == len
  {
    hide PagesNr;
    PagesExact(buf, len);
  }

  lemma ExtentsSnoc(base: nat, sgl: seq<SgPage>, e: SgPage)
    ensures Flatten(UserExtents(base, sgl + [e]))
         == Flatten(UserExtents(base, sgl)) + Range(base + 4096 * |sgl| + e.offset, e.length)
  {
    var x := Extent(base + 4096 * |sgl| + e.offset, e.length);
    assert UserExtents(base, sgl + [e]) == UserExtents(base, sgl) + [x];
    FlattenConcat(UserExtents(base, sgl), [x]);
    assert Flatten([x]) == Range(x.addr, x.len) + Flatten([]);
  }

  /** A buffer of 4 GiB at address 0: no entry gets a byte, and the mapping fails with all of it
      left, although every page of it could be pinned. */
  lemma {:induction false} FourGiBWitness(i: nat)
    requires i <= 0x10_0000
    ensures PagesNr(0, 0x1_0000_0000) == 0x10_0000
    ensures PageLeft(0, 0x1_0000_0000, i) == 0x1_0000_0000
    decreases i
  {
    if i > 0 {
      FourGiBWitness(i - 1);
      LeftStep(0, 0x1_0000_0000, i - 1);
    }
  }
}
