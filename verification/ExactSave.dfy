/** Putting an exact index's cache file in place (engine/artifact/exact.go:60-116):
    a temporary file written, synced and renamed. Whatever fails, and whenever
    power is lost, the cache is the old file or the new one, whole. */
module ExactSave {
  import opened Bytes
  import opened Options
  import opened ExactIndex
  import opened ExactLayout
  import opened ExactCode
  import opened ExactFile

  /** A file, and whether its bytes are durable. */
  datatype File = File(bytes: seq<byte>, synced: bool)

  /** The cache's name and the temporary one. */
  datatype Place = Place(cache: Option<File>, temp: Option<File>)

  function Content(f: Option<File>): Option<seq<byte>> {
    if f.Some? then Some(f.value.bytes) else None
  }

  predicate Durable(f: Option<File>) {
    f.Some? ==> f.value.synced
  }

  /** What a power loss can leave under a name: what is durable, or anything. */
  ghost predicate Leaves(f: Option<File>, x: Option<seq<byte>>) {
    Durable(f) ==> x == Content(f)
  }

  /** A rename that was not yet durable may be undone by the loss. */
  ghost predicate LossLeaves(before: Place, p: Place, x: Option<seq<byte>>) {
    Leaves(p.cache, x) || Leaves(before.cache, x)
  }

  /** The cache is as it was, or the new file and durable. */
  predicate OldOrNew(before: Place, file: seq<byte>, p: Place) {
    p.cache == before.cache || p.cache == Some(File(file, true))
  }

  class Saver {
    var place: Place
    /** No step fails while this holds. */
    var calm: bool
    /** The files at every point of the last save. */
    var trace: seq<Place>

    constructor (place: Place)
      ensures this.place == place && trace == [place] && calm
    {
      this.place, trace, calm := place, [place], true;
    }

    method Step(p: Place)
      modifies this`place, this`trace
      ensures place == p && trace == old(trace) + [p]
    {
      place, trace := p, trace + [p];
    }

    /** Saves the index. The temporary file goes again unless its removal fails
        too. */
    method SaveExact(idx: Index, analyzer: seq<byte>, build: BuildInfo, encode: Meta -> seq<byte>) returns (ok: bool)
      requires idx.Valid() && place.temp.None?
      modifies this`place, this`trace
      ensures |trace| > 0 && trace[|trace| - 1] == place
      ensures var file := FileOf(Listing(idx), encode(MetaOf(Listing(idx), analyzer, build)));
              && (forall p | p in trace :: OldOrNew(old(place), file, p))
              && (ok ==> place == Place(Some(File(file, true)), None))
      ensures !ok ==> place.cache == old(place.cache)
      ensures calm ==> ok
    {
      hide Index.Valid, FileOf, Listing;
      trace := [place];
      var first := place;
      var file := ExactFile.SaveExact(idx, analyzer, build, encode);
      ok :| calm ==> ok;
      if !ok {
        return;
      }
      Step(place.(temp := Some(File([], false))));
      ok := Fill(file);
      if ok {
        var closed: bool, renamed: bool :| calm ==> closed && renamed;
        ok := closed && renamed;
        if ok {
          Step(Place(place.temp, None));
        }
      }
      if place.temp.Some? {
        var removed: bool :| calm ==> removed;
        if removed {
          Step(place.(temp := None));
        }
      }
    }

    /** Writes the bytes through a buffer, in pieces of any size, and syncs. */
    method Fill(file: seq<byte>) returns (ok: bool)
      requires place.temp == Some(File([], false)) && |trace| > 0 && trace[|trace| - 1] == place
      modifies this`place, this`trace
      ensures |trace| > 0 && trace[|trace| - 1] == place
      ensures place.cache == old(place.cache) && place.temp.Some?
      ensures forall p | p in trace :: p in old(trace) || p.cache == old(place.cache)
      ensures ok ==> place.temp == Some(File(file, true))
      ensures calm ==> ok
    {
      var done := 0;
      while done < |file|
        invariant done <= |file| && place == Place(old(place.cache), Some(File(file[..done], false)))
        invariant |trace| > 0 && trace[|trace| - 1] == place
        invariant forall p | p in trace :: p in old(trace) || p.cache == old(place.cache)
      {
        var n: nat, written: bool :| done < n <= |file| && (calm ==> written);
        if !written {
          return false;
        }
        Step(place.(temp := Some(File(file[..n], false))));
        done := n;
      }
      assert file[..|file|] == file;
      var synced: bool :| calm ==> synced;
      if !synced {
        return false;
      }
      Step(place.(temp := Some(File(file, true))));
      ok := true;
    }
  }

  /** After a power loss at any point of a save the cache is the old file or the
      new one, whole: the loader never meets part of one. */
  lemma LossIsWhole(before: Place, file: seq<byte>, p: Place, x: Option<seq<byte>>)
    requires Durable(before.cache) && OldOrNew(before, file, p) && LossLeaves(before, p, x)
    ensures x == Content(before.cache) || x == Some(file)
  {
  }
}
