/** Path converters between the Windows, WSL and URI-like path forms the
    extension meets (src/helpers.ts). The one effect of the source, probing
    whether a file can be read, is the `readable` parameter. */
module Helpers {
  import opened Wrappers
  import opened Text

  /** `/c:/Users/x` becomes `c:\Users\x`: every `/` becomes `\` and the
      first character is dropped. */
  function ConvertPathToWindowFormat(path: string): (r: string)
    ensures '/' !in r
    ensures |path| > 0 ==> |r| == |path| - 1
    ensures |path| == 0 ==> r == ""
    ensures forall i :: 0 <= i < |r| ==> r[i] == (if path[i + 1] == '/' then '\\' else path[i + 1])
  {
    var replaced := ReplaceAll(path, '/', '\\');
    if |replaced| == 0 then "" else replaced[1..]
  }

  lemma ReplaceAllCons(c: char, s: string, from: char, to: char)
    ensures ReplaceAll([c] + s, from, to) == [if c == from then to else c] + ReplaceAll(s, from, to)
  {
  }

  /** The converter's join, for the segments after the first `/`. */
  lemma DriveSegmentJoin(rest: string)
    ensures
      var segments := Split(rest, '/');
      var k := FirstIndex(rest, '/');
      Join([segments[0] + ":"] + segments[1..], '\\') == rest[..k] + ":" + ReplaceAll(rest[k..], '/', '\\')
  {
    if '/' !in rest {
      SplitNoSep(rest, '/');
      var k := FirstIndex(rest, '/');
      assert rest[..k] == rest;
      assert rest[k..] == "";
    } else {
      DriveSegmentJoinSlash(rest);
    }
  }

  lemma DriveSegmentJoinSlash(rest: string)
    requires '/' in rest
    ensures
      var segments := Split(rest, '/');
      var k := FirstIndex(rest, '/');
      Join([segments[0] + ":"] + segments[1..], '\\') == rest[..k] + ":" + ReplaceAll(rest[k..], '/', '\\')
  {
    var k := FirstIndex(rest, '/');
    var tail := AfterFirst(rest, '/');
    var segments := Split(rest, '/');
    var replaced := ReplaceAll(tail, '/', '\\');
    var head := rest[..k] + ":";
    calc {
      Join([segments[0] + ":"] + segments[1..], '\\');
      { SplitAtFirst(rest, '/');
        assert [segments[0] + ":"] + segments[1..] == [head] + Split(tail, '/'); }
      Join([head] + Split(tail, '/'), '\\');
      { JoinCons(head, Split(tail, '/'), '\\'); }
      head + ['\\'] + Join(Split(tail, '/'), '\\');
      { JoinSplitReplace(tail, '/', '\\'); }
      rest[..k] + ":" + (['\\'] + replaced);
      { assert rest[k..] == ['/'] + tail;
        ReplaceAllCons('/', tail, '/', '\\'); }
      rest[..k] + ":" + ReplaceAll(rest[k..], '/', '\\');
    }
  }

  lemma ContractPathShape(path: string)
    ensures '/' !in path ==> |Split(path, '/')[1..]| == 0
    ensures '/' in path ==> Split(path, '/')[1..] == Split(AfterFirst(path, '/'), '/')
  {
    if '/' !in path {
      SplitNoSep(path, '/');
    } else {
      SplitAtFirst(path, '/');
    }
  }

  /** `/c/Users/x` becomes `c:\Users\x`: the part before the first `/` is
      dropped, a `:` follows the next segment and the remaining `/` become
      `\`. Without any `/` the source's `undefined += ':'` yields
      `"undefined:"`. */
  function ConvertContractPathToWindowFormat(path: string): (r: string)
    ensures '/' !in path ==> r == "undefined:"
    ensures '/' in path ==>
      var rest := AfterFirst(path, '/');
      var k := FirstIndex(rest, '/');
      r == rest[..k] + ":" + ReplaceAll(rest[k..], '/', '\\')
  {
    var segments := Split(path, '/')[1..];
    ContractPathShape(path);
    if '/' !in path then
      // `messageArray` is empty: `undefined += ':'`
      "undefined:"
    else
      DriveSegmentJoin(AfterFirst(path, '/'));
      Join([segments[0] + ":"] + segments[1..], '\\')
  }

  lemma ContractPathExample(path: string)
    requires path == "/c/Users/x"
    ensures ConvertContractPathToWindowFormat(path) == "c:\\Users\\x"
  {
    assert path[0] == '/';
    assert FirstIndex(path, '/') == 0;
    var rest := AfterFirst(path, '/');
    assert rest == "c/Users/x";
    assert rest[0] != '/' && rest[1..][0] == '/';
    assert FirstIndex(rest, '/') == 1;
    var tail := rest[1..];
    assert tail == "/Users/x";
    var replaced := ReplaceAll(tail, '/', '\\');
    assert replaced == "\\Users\\x";
  }

  /** How `/mnt` in front of a path changes its split. */
  lemma WslParts(path: string)
    ensures Split("/mnt" + path, '/') == ["", "mnt" + Split(path, '/')[0]] + Split(path, '/')[1..]
  {
    assert "/mnt" + path == "" + ['/'] + ("mnt" + path);
    SplitAfter("", "mnt" + path, '/');
    SplitPrefix("mnt", path, '/');
  }

  /** Joining back the segments of `t` with the first one lower-cased. */
  lemma LowerHeadJoin(t: string)
    ensures
      var k := FirstIndex(t, '/');
      var parts := Split(t, '/');
      Join([ToLowerAscii(parts[0])] + parts[1..], '/') == ToLowerAscii(t[..k]) + t[k..]
  {
    var k := FirstIndex(t, '/');
    if '/' !in t {
      SplitNoSep(t, '/');
      assert t[..k] == t && t[k..] == "";
      assert [ToLowerAscii(Split(t, '/')[0])] + Split(t, '/')[1..] == [ToLowerAscii(t)];
    } else {
      LowerHeadJoinSlash(t);
    }
  }

  lemma LowerHeadJoinSlash(t: string)
    requires '/' in t
    ensures
      var k := FirstIndex(t, '/');
      var parts := Split(t, '/');
      Join([ToLowerAscii(parts[0])] + parts[1..], '/') == ToLowerAscii(t[..k]) + t[k..]
  {
    var k := FirstIndex(t, '/');
    var parts := Split(t, '/');
    var t2 := AfterFirst(t, '/');
    calc {
      Join([ToLowerAscii(parts[0])] + parts[1..], '/');
      { SplitAtFirst(t, '/');
        assert [ToLowerAscii(parts[0])] + parts[1..] == [ToLowerAscii(t[..k])] + Split(t2, '/'); }
      Join([ToLowerAscii(t[..k])] + Split(t2, '/'), '/');
      { JoinCons(ToLowerAscii(t[..k]), Split(t2, '/'), '/'); }
      ToLowerAscii(t[..k]) + "/" + Join(Split(t2, '/'), '/');
      { JoinSplit(t2, '/'); }
      ToLowerAscii(t[..k]) + ("/" + t2);
      { assert t[k..] == "/" + t2; }
      ToLowerAscii(t[..k]) + t[k..];
    }
  }

  /** Joining back with `m` in front and the first segment of `t` lower-cased. */
  lemma LowerSegmentJoin(m: string, t: string)
    ensures
      var k := FirstIndex(t, '/');
      var parts := Split(t, '/');
      Join(["", m, ToLowerAscii(parts[0])] + parts[1..], '/') == "/" + m + "/" + ToLowerAscii(t[..k]) + t[k..]
  {
    var k := FirstIndex(t, '/');
    var parts := Split(t, '/');
    var rest := [ToLowerAscii(parts[0])] + parts[1..];
    calc {
      Join(["", m, ToLowerAscii(parts[0])] + parts[1..], '/');
      { assert ["", m, ToLowerAscii(parts[0])] + parts[1..] == [""] + ([m] + rest); }
      Join([""] + ([m] + rest), '/');
      { JoinCons("", [m] + rest, '/'); }
      "" + "/" + Join([m] + rest, '/');
      { JoinCons(m, rest, '/'); }
      "" + "/" + (m + "/" + Join(rest, '/'));
      { LowerHeadJoin(t); }
      "" + "/" + (m + "/" + (ToLowerAscii(t[..k]) + t[k..]));
      "/" + m + "/" + ToLowerAscii(t[..k]) + t[k..];
    }
  }

  /** The string arithmetic behind `WslShapeSlash`. */
  lemma MntConcat(path: string, i: nat, k: nat)
    requires i < |path| && path[i] == '/' && i + 1 + k <= |path|
    ensures "/" + ("mnt" + path[..i]) + "/" + ToLowerAscii(path[i + 1..][..k]) + path[i + 1..][k..]
         == "/mnt" + path[..i + 1] + ToLowerAscii(path[i + 1..i + 1 + k]) + path[i + 1 + k..]
  {
    assert path[i + 1..][..k] == path[i + 1..i + 1 + k];
    assert path[i + 1..][k..] == path[i + 1 + k..];
    assert path[..i + 1] == path[..i] + "/";
    assert "/mnt" + path[..i + 1] == "/" + ("mnt" + path[..i]) + "/";
  }

  /** The split of a WSL path with a `/`: an empty segment, `mnt` glued to
      what precedes the first `/`, then the segments after it. */
  lemma WslSplit(path: string)
    requires '/' in path
    ensures var i := FirstIndex(path, '/');
      Split("/mnt" + path, '/') == ["", "mnt" + path[..i]] + Split(path[i + 1..], '/')
  {
    WslParts(path);
    SplitAtFirst(path, '/');
  }

  lemma LowerThird(m: string, tparts: seq<string>)
    requires |tparts| >= 1
    ensures var parts := ["", m] + tparts;
      parts[2 := ToLowerAscii(parts[2])] == ["", m, ToLowerAscii(tparts[0])] + tparts[1..]
  {
    var parts := ["", m] + tparts;
    assert parts[2] == tparts[0];
  }

  lemma WslShapeSlash(path: string)
    requires '/' in path
    ensures
      var parts := Split("/mnt" + path, '/');
      var j := FirstIndex(path, '/') + 1;
      var e := j + FirstIndex(path[j..], '/');
      |parts| >= 3 &&
      Join(parts[2 := ToLowerAscii(parts[2])], '/') == "/mnt" + path[..j] + ToLowerAscii(path[j..e]) + path[e..]
  {
    var i := FirstIndex(path, '/');
    var t := path[i + 1..];
    var m := "mnt" + path[..i];
    var tparts := Split(t, '/');
    var k := FirstIndex(t, '/');
    var parts := Split("/mnt" + path, '/');
    WslSplit(path);
    calc {
      Join(parts[2 := ToLowerAscii(parts[2])], '/');
      { LowerThird(m, tparts); }
      Join(["", m, ToLowerAscii(tparts[0])] + tparts[1..], '/');
      { LowerSegmentJoin(m, t); }
      "/" + m + "/" + ToLowerAscii(t[..k]) + t[k..];
      { MntConcat(path, i, k); }
      "/mnt" + path[..i + 1] + ToLowerAscii(path[i + 1..i + 1 + k]) + path[i + 1 + k..];
    }
  }

  lemma WslShape(path: string)
    ensures '/' !in path ==> |Split("/mnt" + path, '/')| < 3
    ensures '/' in path ==>
      var parts := Split("/mnt" + path, '/');
      var j := FirstIndex(path, '/') + 1;
      var e := j + FirstIndex(path[j..], '/');
      |parts| >= 3 &&
      Join(parts[2 := ToLowerAscii(parts[2])], '/') == "/mnt" + path[..j] + ToLowerAscii(path[j..e]) + path[e..]
  {
    if '/' !in path {
      WslParts(path);
      SplitNoSep(path, '/');
    } else {
      WslShapeSlash(path);
    }
  }

  /** A readable path is kept; otherwise the path is taken for a WSL mount:
      `/mnt` is put in front and the drive segment (the one after the first
      `/` of the path) is lower-cased. A path without `/` has no such
      segment and the source throws (`None`). */
  lemma WslLength(path: string)
    ensures '/' in path ==>
      var j := FirstIndex(path, '/') + 1;
      var e := j + FirstIndex(path[j..], '/');
      |"/mnt" + path[..j] + ToLowerAscii(path[j..e]) + path[e..]| == |path| + 4
  {
  }

  function ConvertLinuxWSLPathToWindowFormat(path: string, readable: bool): (r: Option<string>)
    ensures readable ==> r == Some(path)
    ensures !readable && '/' !in path ==> r == None
    ensures !readable && '/' in path ==>
      var j := FirstIndex(path, '/') + 1;
      var e := j + FirstIndex(path[j..], '/');
      r == Some("/mnt" + path[..j] + ToLowerAscii(path[j..e]) + path[e..])
    ensures r.Some? ==> |r.value| == |path| + (if readable then 0 else 4)
  {
    if readable then Some(path)
    else
      var parts := Split("/mnt" + path, '/');
      WslShape(path);
      WslLength(path);
      if |parts| < 3 then None
      else Some(Join(parts[2 := ToLowerAscii(parts[2])], '/'))
  }

  lemma OsPathShape(path: string)
    ensures !('\\' in path && '\\' in AfterFirst(path, '\\')) ==> |Split(path, '\\')| < 3
    ensures '\\' in path && '\\' in AfterFirst(path, '\\') ==>
      |Split(path, '\\')| >= 3 &&
      Join(Split(path, '\\')[2..], '\\') == AfterFirst(AfterFirst(path, '\\'), '\\')
  {
    if '\\' !in path {
      SplitNoSep(path, '\\');
    } else {
      SplitAtFirst(path, '\\');
      var t := AfterFirst(path, '\\');
      if '\\' !in t {
        SplitNoSep(t, '\\');
      } else {
        SplitAtFirst(t, '\\');
        var t2 := AfterFirst(t, '\\');
        assert Split(path, '\\')[2..] == Split(t2, '\\');
        JoinSplit(t2, '\\');
      }
    }
  }

  /** `c:\mnt\c\Users\x` becomes `c\Users\x`: the first two `\`-separated
      segments are dropped; with fewer than two `\` nothing is left. */
  function ConvertOSPathToWindowFormat(path: string): (r: string)
    ensures !('\\' in path && '\\' in AfterFirst(path, '\\')) ==> r == ""
    ensures '\\' in path && '\\' in AfterFirst(path, '\\') ==> r == AfterFirst(AfterFirst(path, '\\'), '\\')
    ensures |r| <= |path| && r == path[|path| - |r|..]
  {
    var parts := Split(path, '\\');
    OsPathShape(path);
    if |parts| < 3 then "" else Join(parts[2..], '\\')
  }
}
