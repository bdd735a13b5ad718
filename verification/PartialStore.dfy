/** The saved partial of one payload: a buffer file and a sidecar
    (clients/node/lib/store.js). */
module PartialStore {
  import opened Wire

  datatype Meta = Meta(pid: u16, crc: u32, count: u16, length: u32, have: set<nat>)

  /** The sidecar of a client's progress; `pid` is the one the fetch asked for. */
  function MetaOf(pid: u16, crc: u32, count: u16, length: u32, have: set<u16>): Meta {
    Meta(pid, crc, count, length, set i | i in have :: i as nat)
  }

  /** The two files on disk. One write or one delete is atomic. */
  datatype Files = Files(buf: Option<bytes>, meta: Option<Meta>)

  const NOTHING := Files(None, None)

  /** What loadPartial hands back. */
  datatype Partial = Partial(meta: Meta, buf: bytes)

  function Load(f: Files): Option<Partial> {
    if f.meta.None? || f.buf.None? then None
    else if |f.buf.value| != f.meta.value.length then None
    else Some(Partial(f.meta.value, f.buf.value))
  }

  class PartialStore {
    var bufFile: Option<bytes>
    var metaFile: Option<Meta>
    ghost var passed: seq<Files> // every state the files have been in, a crash can stop at each

    ghost function State(): Files
      reads this
    {
      Files(bufFile, metaFile)
    }

    constructor ()
      ensures State() == NOTHING && passed == [NOTHING]
    {
      bufFile, metaFile, passed := None, None, [NOTHING];
    }

    /** Buffer first, then the sidecar. */
    method SavePartial(meta: Meta, buf: bytes)
      modifies this
      ensures State() == Files(Some(buf), Some(meta))
      ensures passed == old(passed) + [Files(Some(buf), old(metaFile)), Files(Some(buf), Some(meta))]
    {
      WriteBuffer(buf);
      WriteMeta(meta);
    }

    method WriteBuffer(buf: bytes)
      modifies this`bufFile, this`passed
      ensures State() == old(State()).(buf := Some(buf)) && passed == old(passed) + [State()]
    {
      bufFile := Some(buf);
      passed := passed + [State()];
    }

    method WriteMeta(meta: Meta)
      modifies this`metaFile, this`passed
      ensures State() == old(State()).(meta := Some(meta)) && passed == old(passed) + [State()]
    {
      metaFile := Some(meta);
      passed := passed + [State()];
    }

    method LoadPartial() returns (r: Option<Partial>)
      ensures r == Load(State())
    {
      if metaFile.None? || bufFile.None? {
        return None;
      }
      if |bufFile.value| != metaFile.value.length {
        return None;
      }
      return Some(Partial(metaFile.value, bufFile.value));
    }

    /** Buffer first, then the sidecar: the same order as the writes. */
    method ClearPartial()
      modifies this
      ensures State() == NOTHING
      ensures passed == old(passed) + [Files(None, old(metaFile)), NOTHING]
    {
      RemoveBuffer();
      RemoveMeta();
    }

    method RemoveBuffer()
      modifies this`bufFile, this`passed
      ensures State() == old(State()).(buf := None) && passed == old(passed) + [State()]
    {
      bufFile := None;
      passed := passed + [State()];
    }

    method RemoveMeta()
      modifies this`metaFile, this`passed
      ensures State() == old(State()).(meta := None) && passed == old(passed) + [State()]
    {
      metaFile := None;
      passed := passed + [State()];
    }
  }
}
