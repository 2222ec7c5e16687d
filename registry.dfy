/** The breakpoint registry of src/runtime/runtime.ts as values: a map from
    a key to the list ("bucket") of breakpoints registered under it. */
module Registry {
  import opened Wrappers
  import opened Text

  datatype Breakpoint = Breakpoint(fullpath: string, id: int, line: int, verified: bool)

  /** The number `verifyBreakpoints` compares lines with. The source writes
      `getContractLines.length`, the arity of the getter, which is 0. */
  const ContractLinesArity: int := 0

  /** One entry after verification: an unverified entry whose line is below
      the bound becomes verified; any other is kept. */
  function Verified(bp: Breakpoint, bound: int): Breakpoint
  {
    if !bp.verified && bp.line < bound then bp.(verified := true) else bp
  }

  function VerifyBucket(bps: seq<Breakpoint>, bound: int): (r: seq<Breakpoint>)
    ensures |r| == |bps|
    ensures forall i :: 0 <= i < |bps| ==> r[i] == Verified(bps[i], bound)
    ensures forall i :: 0 <= i < |bps| ==>
      && (r[i].verified <==> bps[i].verified || bps[i].line < bound)
      && r[i].id == bps[i].id && r[i].line == bps[i].line && r[i].fullpath == bps[i].fullpath
  {
    seq(|bps|, i requires 0 <= i < |bps| => Verified(bps[i], bound))
  }

  /** The entries that verification flips, in bucket order, as they are
      after the flip: one `breakpointValidated` each. */
  function Validated(bps: seq<Breakpoint>, bound: int): seq<Breakpoint>
    decreases |bps|
  {
    if |bps| == 0 then []
    else (if !bps[0].verified && bps[0].line < bound then [bps[0].(verified := true)] else [])
         + Validated(bps[1..], bound)
  }

  /** Verifying twice is verifying once, and the second pass validates nothing. */
  lemma {:induction false} VerifyIdempotent(bps: seq<Breakpoint>, bound: int)
    ensures VerifyBucket(VerifyBucket(bps, bound), bound) == VerifyBucket(bps, bound)
    ensures Validated(VerifyBucket(bps, bound), bound) == []
    decreases |bps|
  {
    if |bps| > 0 {
      VerifyIdempotent(bps[1..], bound);
      assert VerifyBucket(bps, bound)[1..] == VerifyBucket(bps[1..], bound);
    }
  }

  /** Validating a bucket with one more entry at the end validates that
      entry last, if at all. */
  lemma {:induction false} ValidatedAppend(bps: seq<Breakpoint>, bp: Breakpoint, bound: int)
    ensures Validated(bps + [bp], bound) ==
      Validated(bps, bound) + (if !bp.verified && bp.line < bound then [bp.(verified := true)] else [])
    decreases |bps|
  {
    if |bps| > 0 {
      assert (bps + [bp])[1..] == bps[1..] + [bp];
      ValidatedAppend(bps[1..], bp, bound);
    } else {
      assert bps + [bp] == [bp];
    }
  }

  /** A new, unverified breakpoint below the bound added to a bucket whose
      entries are all verified is validated alone, with its own id. */
  lemma AddThenVerify(bps: seq<Breakpoint>, bp: Breakpoint, bound: int)
    requires forall i :: 0 <= i < |bps| ==> bps[i].verified
    requires !bp.verified && bp.line < bound
    ensures Validated(bps + [bp], bound) == [bp.(verified := true)]
    ensures Validated(bps + [bp], bound)[0].id == bp.id
  {
    ValidatedAppend(bps, bp, bound);
    VerifyIdempotent(bps, bound);
    assert VerifyBucket(bps, bound) == bps;
  }

  /** With the bound the source really uses no entry with a line of 0 or
      more is ever verified. */
  lemma NothingVerifiedAtArity(bps: seq<Breakpoint>)
    requires forall i :: 0 <= i < |bps| ==> bps[i].line >= 0
    ensures VerifyBucket(bps, ContractLinesArity) == bps
    ensures Validated(bps, ContractLinesArity) == []
  {
    assert Validated(VerifyBucket(bps, ContractLinesArity), ContractLinesArity) == [] by {
      VerifyIdempotent(bps, ContractLinesArity);
    }
  }

  /** The loop of `verifyBreakpoints` over one bucket. */
  method VerifyEntries(bps: seq<Breakpoint>, bound: int) returns (updated: seq<Breakpoint>, validated: seq<Breakpoint>)
    ensures updated == VerifyBucket(bps, bound)
    ensures validated == Validated(bps, bound)
  {
    updated, validated := bps, [];
    var i := 0;
    while i < |bps|
      invariant 0 <= i <= |bps| && |updated| == |bps|
      invariant forall k :: 0 <= k < i ==> updated[k] == Verified(bps[k], bound)
      invariant forall k :: i <= k < |bps| ==> updated[k] == bps[k]
      invariant validated == Validated(bps[..i], bound)
    {
      var bp := updated[i];
      ValidatedAppend(bps[..i], bp, bound);
      assert bps[..i + 1] == bps[..i] + [bp];
      if !bp.verified && bp.line < bound {
        updated := updated[i := bp.(verified := true)];
        validated := validated + [bp.(verified := true)];
      }
      i := i + 1;
    }
    assert bps[..i] == bps;
  }

  /** `setBreakPoint`'s update of the map: the lookup uses the path as
      given, the store uses its basename, so a miss starts a new bucket. */
  function AddBreakpoint(registry: map<string, seq<Breakpoint>>, path: string, bp: Breakpoint): map<string, seq<Breakpoint>>
  {
    if path in registry then registry[path := registry[path] + [bp]]
    else registry[Basename(path) := [bp]]
  }

  /** Every key the registry stores is a basename. */
  ghost predicate BasenameKeys(registry: map<string, seq<Breakpoint>>)
  {
    forall k :: k in registry ==> '/' !in k
  }

  /** Keys stay basenames; a path with a directory always misses the lookup,
      so it replaces whatever bucket its basename had with a fresh one; a bare
      name already present gets the new entry appended. Other keys keep
      their buckets. */
  lemma AddBreakpointBuckets(registry: map<string, seq<Breakpoint>>, path: string, bp: Breakpoint)
    requires BasenameKeys(registry)
    ensures var r := AddBreakpoint(registry, path, bp);
      && BasenameKeys(r)
      && ('/' in path ==> r == registry[Basename(path) := [bp]])
      && ('/' !in path && path in registry ==> r[path] == registry[path] + [bp])
      && (forall k :: k in registry && k != Basename(path) ==> k in r && r[k] == registry[k])
  {
  }

  /** A path with a directory is never a key, so clearing by it removes
      nothing: neither the oldest entry nor the bucket. */
  lemma FullPathMisses(registry: map<string, seq<Breakpoint>>, path: string)
    requires BasenameKeys(registry) && '/' in path
    ensures path !in registry
    ensures ClearFirst(registry, path) == (registry, None)
    ensures registry - {path} == registry
  {
  }

  /** `clearBreakPoint`'s update: the oldest entry of the bucket goes,
      whatever its line. */
  function ClearFirst(registry: map<string, seq<Breakpoint>>, path: string): (r: (map<string, seq<Breakpoint>>, Option<Breakpoint>))
    requires path in registry ==> |registry[path]| > 0
    ensures path !in registry ==> r == (registry, None)
    ensures path in registry ==>
      && r.1 == Some(registry[path][0])
      && r.0 == registry[path := registry[path][1..]]
      && registry[path] == [r.1.value] + r.0[path]
  {
    if path in registry then (registry[path := registry[path][1..]], Some(registry[path][0]))
    else (registry, None)
  }
}
