/**
 * seenPackageRename: the per-file record of import paths whose renaming has
 * already been processed, so that a file reached through several packages
 * (test variants, several reverse dependencies) is edited only once.
 */
module Seen {
  import opened Model

  /** A (file, import path) pair. */
  datatype SeenKey = SeenKey(uri: Uri, importPath: string)

  class SeenPackageRename {
    /** The Go map; a key that is absent reads as false. */
    var marks: map<SeenKey, bool>

    /** The keys recorded as seen. */
    function Keys(): set<SeenKey>
      reads this
    {
      set k | k in marks && marks[k]
    }

    /** The value a Go lookup `s[k]` yields. */
    function Lookup(k: SeenKey): (b: bool)
      reads this
      ensures b <==> k in Keys()
    {
      k in marks && marks[k]
    }

    constructor ()
      ensures Keys() == {}
      ensures marks == map[]
    {
      marks := map[];
    }

    /**
     * add: reports whether (uri, importPath) had been seen, and records it as
     * seen. The map is written only when the key was not seen before.
     */
    method Add(uri: Uri, importPath: string) returns (wasSeen: bool)
      modifies this
      ensures wasSeen <==> SeenKey(uri, importPath) in old(Keys())
      ensures Keys() == old(Keys()) + {SeenKey(uri, importPath)}
      ensures wasSeen ==> Keys() == old(Keys())
      ensures wasSeen ==> marks == old(marks)
      ensures !wasSeen ==> marks == old(marks)[SeenKey(uri, importPath) := true]
    {
      var key := SeenKey(uri, importPath);
      wasSeen := Lookup(key);
      if !wasSeen {
        marks := marks[key := true];
      }
      assert Keys() == old(Keys()) + {key} by {
        forall k ensures k in Keys() <==> k in old(Keys()) + {key} {
          if k != key {
            assert k in marks <==> k in old(marks);
          }
        }
      }
    }
  }
}
