/**
 The asset store of version 2 visuals: every path is read once, and every distinct content is
 charged once against an aggregate byte budget.
 */
module AssetStores {
  import opened HwpModel

  const MAX_TOTAL_ASSET_BYTES := 128 * 1024 * 1024

  type Content = seq<int>

  datatype AssetError = TooLong | Unreadable | AggregateBudget

  datatype ReadResult = Bytes(content: Content) | Failed(error: AssetError)

  // ----- Lengths of distinct contents ----------------------------------------------------

  ghost function TotalLength(contents: set<Content>): nat {
    if contents == {} then 0
    else
      var c :| c in contents;
      |c| + TotalLength(contents - {c})
  }

  lemma {:induction false} TotalWithout(contents: set<Content>, c: Content)
    requires c in contents
    ensures TotalLength(contents) == |c| + TotalLength(contents - {c})
    decreases |contents|
  {
    var d :| d in contents && TotalLength(contents) == |d| + TotalLength(contents - {d});
    if d != c {
      TotalWithout(contents - {d}, c);
      TotalWithout(contents - {c}, d);
      assert contents - {d} - {c} == contents - {c} - {d};
    }
  }

  lemma TotalWith(contents: set<Content>, c: Content)
    requires c !in contents
    ensures TotalLength(contents + {c}) == TotalLength(contents) + |c|
  {
    TotalWithout(contents + {c}, c);
    assert contents + {c} - {c} == contents;
  }

  class AssetStore {
    var byPath: map<string, Content>
    /** The contents read so far; the program keeps their digests, which tell contents apart. */
    var unique: set<Content>
    var totalBytes: nat

    /** As long as no read has failed. */
    ghost predicate Valid()
      reads this
    {
      && unique == byPath.Values
      && totalBytes == TotalLength(unique) <= MAX_TOTAL_ASSET_BYTES
    }

    constructor ()
      ensures Valid() && byPath == map[] && totalBytes == 0
    {
      byPath, unique, totalBytes := map[], {}, 0;
      new;
      assert byPath.Values == {};
    }

    /**
     Reads an asset of at most `maxBytes` bytes; `file` is what the path holds now. A path read
     before gives the bytes read then, at no charge, even if its file has changed since.
     */
    method ReadAsset(path: string, file: Option<Content>, maxBytes: nat) returns (r: ReadResult)
      requires Valid()
      modifies this
      ensures path in old(byPath) ==>
        && byPath == old(byPath) && totalBytes == old(totalBytes) && unique == old(unique)
        && r == if |old(byPath)[path]| > maxBytes then Failed(TooLong) else Bytes(old(byPath)[path])
      ensures path !in old(byPath) ==>
        && r.Bytes? == (file.Some? && |file.value| <= maxBytes
          && TotalLength(old(unique) + {file.value}) <= MAX_TOTAL_ASSET_BYTES)
        && (r.Bytes? ==> r.content == file.value && byPath == old(byPath)[path := file.value])
      ensures r.Bytes? ==> Valid()
      ensures r.Failed? && r.error != AggregateBudget ==> Valid()
      ensures r == Failed(AggregateBudget) ==>
        && byPath == old(byPath) && file.Some? && file.value !in old(unique) && unique == old(unique) + {file.value}
        && totalBytes == TotalLength(unique) > MAX_TOTAL_ASSET_BYTES
    {
      hide TotalLength;
      if path in byPath {
        if |byPath[path]| > maxBytes {
          return Failed(TooLong);
        }
        return Bytes(byPath[path]);
      }
      if file.None? || |file.value| > maxBytes {
        return Failed(Unreadable);
      }
      var content := file.value;
      if content !in unique {
        TotalWith(unique, content);
        unique := unique + {content};
        totalBytes := totalBytes + |content|;
        if totalBytes > MAX_TOTAL_ASSET_BYTES {
          return Failed(AggregateBudget);
        }
      }
      assert old(unique) + {content} == unique;
      ValuesWith(byPath, path, content);
      byPath := byPath[path := content];
      return Bytes(content);
    }
  }

  lemma ValuesWith(m: map<string, Content>, path: string, content: Content)
    requires path !in m
    ensures m[path := content].Values == m.Values + {content}
  {
    var n := m[path := content];
    forall c ensures c in n.Values <==> c in m.Values + {content} {
      if c in m.Values {
        var p :| p in m && m[p] == c;
        assert n[p] == c;
      }
      assert n[path] == content;
    }
  }
}
