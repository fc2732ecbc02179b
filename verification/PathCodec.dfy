/** Where a chunk lies on disk: three layouts, told apart by the number of slashes. */
module PathCodec {

  const CHUNK_DIR_LENGTH := 8

  /** The slices of each layout need this many characters. */
  function MinLength(layout: nat): nat {
    if layout == 2 then 4 else if layout == 1 then 6 else CHUNK_DIR_LENGTH
  }

  function GetHashedFilename(dataDir: string, hash: string, layout: nat): string
    requires layout <= 2 ==> |hash| >= MinLength(layout)
  {
    if layout == 2 then
      dataDir + "/" + hash[..2] + "/" + hash[2..4] + "/" + hash[4..]
    else if layout == 1 then
      dataDir + "/" + hash[..2] + "/" + hash[2..4] + "/" + hash[4..6] + "/" + hash[6..]
    else if layout == 0 then
      dataDir + "/" + hash[..CHUNK_DIR_LENGTH] + "/" + hash[CHUNK_DIR_LENGTH..]
    else ""
  }

  /** Layouts 2 and 1 make two and three directories of two characters each, layout 0 makes one of
      eight; what is left is the file name. */
  lemma PathsOfLayouts(dataDir: string, p: string, q: string, r: string, rest: string)
    requires |p| == |q| == |r| == 2
    ensures GetHashedFilename(dataDir, p + q + rest, 2) == dataDir + "/" + p + "/" + q + "/" + rest
    ensures GetHashedFilename(dataDir, p + q + r + rest, 1) == dataDir + "/" + p + "/" + q + "/" + r + "/" + rest
    ensures forall s: string | |s| == 2 ::
              GetHashedFilename(dataDir, p + q + r + s + rest, 0) == dataDir + "/" + (p + q + r + s) + "/" + rest
    ensures MinLength(2) == 4 && MinLength(1) == 6 && MinLength(0) == 8
  {
    var two, three := p + q + rest, p + q + r + rest;
    assert two[..2] == p && two[2..4] == q && two[4..] == rest;
    assert three[..2] == p && three[2..4] == q && three[4..6] == r && three[6..] == rest;
    forall s: string | |s| == 2
      ensures GetHashedFilename(dataDir, p + q + r + s + rest, 0) == dataDir + "/" + (p + q + r + s) + "/" + rest
    {
      var four := p + q + r + s + rest;
      assert four[..8] == p + q + r + s && four[8..] == rest;
    }
  }

  function TrimPrefix(s: string, prefix: string): string {
    if prefix <= s then s[|prefix|..] else s
  }

  function Slashes(s: string): nat {
    if s == "" then 0 else (if s[0] == '/' then 1 else 0) + Slashes(s[1..])
  }

  function WithoutSlashes(s: string): string {
    if s == "" then "" else (if s[0] == '/' then "" else [s[0]]) + WithoutSlashes(s[1..])
  }

  function GetHashFromPath(dataDir: string, path: string): (string, nat) {
    var hash := TrimPrefix(path, dataDir);
    var cnt := Slashes(hash);
    var layout := if cnt == 3 then 2 else if cnt == 4 then 1 else 0;
    (WithoutSlashes(hash), layout)
  }

  lemma {:induction false} Concatenated(s: string, t: string)
    ensures Slashes(s + t) == Slashes(s) + Slashes(t)
    ensures WithoutSlashes(s + t) == WithoutSlashes(s) + WithoutSlashes(t)
  {
    if s == "" {
      assert s + t == t;
    } else {
      assert (s + t)[1..] == s[1..] + t;
      Concatenated(s[1..], t);
    }
  }

  lemma {:induction false} SlashFree(s: string)
    ensures '/' !in s ==> Slashes(s) == 0 && WithoutSlashes(s) == s
    ensures '/' !in WithoutSlashes(s)
  {
    if s != "" {
      SlashFree(s[1..]);
    }
  }

  /** The directories and the file name that a layout cuts the hash into. */
  function Parts(hash: string, layout: nat): seq<string>
    requires layout <= 2 && |hash| >= MinLength(layout)
  {
    if layout == 2 then [hash[..2], hash[2..4], hash[4..]]
    else if layout == 1 then [hash[..2], hash[2..4], hash[4..6], hash[6..]]
    else [hash[..CHUNK_DIR_LENGTH], hash[CHUNK_DIR_LENGTH..]]
  }

  function Behind(parts: seq<string>): string {
    if parts == [] then "" else "/" + parts[0] + Behind(parts[1..])
  }

  function Flat(parts: seq<string>): string {
    if parts == [] then "" else parts[0] + Flat(parts[1..])
  }

  lemma {:induction false} SlashPerPart(parts: seq<string>)
    requires forall p | p in parts :: '/' !in p
    ensures Slashes(Behind(parts)) == |parts|
    ensures WithoutSlashes(Behind(parts)) == Flat(parts)
  {
    if parts != [] {
      SlashPerPart(parts[1..]);
      var first, rest := parts[0], Behind(parts[1..]);
      assert first in parts;
      SlashFree(first);
      Concatenated(first, rest);
      assert ("/" + first + rest)[1..] == first + rest;
    }
  }

  lemma TwoParts(dir: string, p: string, q: string)
    ensures dir + Behind([p, q]) == dir + "/" + p + "/" + q
    ensures Flat([p, q]) == p + q
  {
    assert [p, q][1..] == [q] && [q][1..] == [];
    assert Behind([q]) == "/" + q && Flat([q]) == q;
  }

  lemma OnePartMore(dir: string, p: string, parts: seq<string>)
    ensures dir + Behind([p] + parts) == (dir + "/" + p) + Behind(parts)
    ensures Flat([p] + parts) == p + Flat(parts)
  {
    assert ([p] + parts)[1..] == parts;
  }

  lemma ThreeParts(dir: string, p: string, q: string, r: string)
    ensures dir + Behind([p, q, r]) == dir + "/" + p + "/" + q + "/" + r
    ensures Flat([p, q, r]) == p + q + r
  {
    assert [p, q, r] == [p] + [q, r];
    OnePartMore(dir, p, [q, r]);
    TwoParts(dir + "/" + p, q, r);
    assert p + (q + r) == p + q + r;
  }

  lemma FourParts(dir: string, p: string, q: string, r: string, s: string)
    ensures dir + Behind([p, q, r, s]) == dir + "/" + p + "/" + q + "/" + r + "/" + s
    ensures Flat([p, q, r, s]) == p + q + r + s
  {
    assert [p, q, r, s] == [p] + [q, r, s];
    OnePartMore(dir, p, [q, r, s]);
    ThreeParts(dir + "/" + p, q, r, s);
    assert p + (q + r + s) == p + q + r + s;
  }

  lemma PartsOf(dataDir: string, hash: string, layout: nat)
    requires layout <= 2 && |hash| >= MinLength(layout)
    ensures dataDir + Behind(Parts(hash, layout)) == GetHashedFilename(dataDir, hash, layout)
    ensures Flat(Parts(hash, layout)) == hash
  {
    if layout == 2 {
      ThreeParts(dataDir, hash[..2], hash[2..4], hash[4..]);
      assert hash[..2] + hash[2..4] + hash[4..] == hash;
    } else if layout == 1 {
      FourParts(dataDir, hash[..2], hash[2..4], hash[4..6], hash[6..]);
      assert hash[..2] + hash[2..4] + hash[4..6] + hash[6..] == hash;
    } else {
      TwoParts(dataDir, hash[..CHUNK_DIR_LENGTH], hash[CHUNK_DIR_LENGTH..]);
      assert hash[..CHUNK_DIR_LENGTH] + hash[CHUNK_DIR_LENGTH..] == hash;
    }
  }

  /** Hash and layout come back from the path exactly for hashes without a slash, whatever the
      data directory is called. */
  lemma PathRoundTrip(dataDir: string, hash: string, layout: nat)
    requires layout <= 2 && |hash| >= MinLength(layout)
    ensures GetHashFromPath(dataDir, GetHashedFilename(dataDir, hash, layout)) == (hash, layout) <==> '/' !in hash
  {
    var parts := Parts(hash, layout);
    PartsOf(dataDir, hash, layout);
    assert TrimPrefix(dataDir + Behind(parts), dataDir) == Behind(parts);
    SlashFree(Behind(parts));
    if '/' !in hash {
      SlashPerPart(parts);
    }
  }

  /** No two chunks share a file. */
  lemma PathsAreDistinct(dataDir: string, hash: string, layout: nat, hash': string, layout': nat)
    requires layout <= 2 && |hash| >= MinLength(layout) && '/' !in hash
    requires layout' <= 2 && |hash'| >= MinLength(layout') && '/' !in hash'
    requires GetHashedFilename(dataDir, hash, layout) == GetHashedFilename(dataDir, hash', layout')
    ensures hash == hash' && layout == layout'
  {
    PathRoundTrip(dataDir, hash, layout);
    PathRoundTrip(dataDir, hash', layout');
  }

  // ---- Paths made under another data directory

  lemma {:induction false} SlashesAndTheRest(s: string)
    ensures |s| == Slashes(s) + |WithoutSlashes(s)|
  {
    if s != "" {
      SlashesAndTheRest(s[1..]);
    }
  }

  predicate OnlySlashes(s: string) {
    forall c | c in s :: c == '/'
  }

  lemma {:induction false} OnlySlashesVanish(s: string)
    ensures WithoutSlashes(s) == "" <==> OnlySlashes(s)
  {
    if s != "" {
      OnlySlashesVanish(s[1..]);
      assert s[0] in s && forall c :: c in s <==> c == s[0] || c in s[1..];
    }
  }

  lemma ReadOffPath(theirs: string, hash: string, layout: nat)
    requires layout <= 2 && |hash| >= MinLength(layout) && '/' !in hash
    ensures var parts := Parts(hash, layout);
            && GetHashedFilename(theirs, hash, layout) == theirs + Behind(parts)
            && Slashes(Behind(parts)) == (if layout == 2 then 3 else if layout == 1 then 4 else 2)
            && WithoutSlashes(Behind(parts)) == hash
  {
    PartsOf(theirs, hash, layout);
    SlashPerPart(Parts(hash, layout));
  }

  /** Layouts 1 and 2: hash and layout are read off a path made under `theirs` exactly if both
      use the same data directory, or the path has none and this one is not at its front. */
  lemma ForeignDataDir(dataDir: string, theirs: string, hash: string, layout: nat)
    requires 1 <= layout <= 2 && |hash| >= MinLength(layout) && '/' !in hash
    ensures var path := GetHashedFilename(theirs, hash, layout);
            GetHashFromPath(dataDir, path) == (hash, layout) <==>
            dataDir == theirs || (theirs == "" && !(dataDir <= path))
  {
    var path, behind := GetHashedFilename(theirs, hash, layout), Behind(Parts(hash, layout));
    ReadOffPath(theirs, hash, layout);
    var rest := TrimPrefix(path, dataDir);
    SlashesAndTheRest(rest);
    SlashesAndTheRest(behind);
    if GetHashFromPath(dataDir, path) == (hash, layout) {
      assert |rest| == |behind|;
      if dataDir <= path {
        assert dataDir == path[..|dataDir|] == theirs;
      }
    }
    if dataDir == theirs {
      assert rest == behind;
    } else if theirs == "" && !(dataDir <= path) {
      assert rest == behind;
    }
  }

  /** A master under "/data2" and a slave under "/data": every hash comes with a 2 in front. */
  lemma LongerDataDir(hash: string, layout: nat)
    requires layout <= 2 && |hash| >= MinLength(layout) && '/' !in hash
    ensures GetHashFromPath("/data", GetHashedFilename("/data2", hash, layout)).0 == "2" + hash
  {
    var behind := Behind(Parts(hash, layout));
    ReadOffPath("/data2", hash, layout);
    var path := GetHashedFilename("/data2", hash, layout);
    assert path == "/data" + ("2" + behind);
    assert TrimPrefix(path, "/data") == "2" + behind;
    Concatenated("2", behind);
    SlashFree("2");
  }

  /** Layout 0 is what any other number of slashes is taken for, so some more directories do:
      one slash too many in this one's name, or slashes only that it lacks or that are all
      there is. */
  lemma ForeignDataDirOldLayout(dataDir: string, theirs: string, hash: string)
    requires |hash| >= CHUNK_DIR_LENGTH && '/' !in hash
    ensures var path := GetHashedFilename(theirs, hash, 0);
            GetHashFromPath(dataDir, path) == (hash, 0) <==>
            || dataDir == theirs + "/"
            || (dataDir <= theirs && Harmless(theirs[|dataDir|..]))
            || (!(dataDir <= path) && Harmless(theirs))
  {
    var path, behind := GetHashedFilename(theirs, hash, 0), Behind(Parts(hash, 0));
    ReadOffPath(theirs, hash, 0);
    if !(dataDir <= path) {
      InFront(theirs, behind, hash);
    } else if |dataDir| <= |theirs| {
      var extra := theirs[|dataDir|..];
      assert dataDir == path[..|dataDir|] == theirs[..|dataDir|];
      assert theirs == dataDir + extra;
      assert path == dataDir + (extra + behind);
      assert path[|dataDir|..] == extra + behind;
      InFront(extra, behind, hash);
    } else {
      assert dataDir == path[..|dataDir|];
      CutOff(dataDir, theirs, hash);
    }
  }

  /** Slashes that do not make the path look like another layout. */
  predicate Harmless(s: string) {
    OnlySlashes(s) && |s| != 1 && |s| != 2
  }

  lemma InFront(extra: string, behind: string, hash: string)
    requires Slashes(behind) == 2 && WithoutSlashes(behind) == hash
    ensures WithoutSlashes(extra + behind) == hash && Slashes(extra + behind) != 3 && Slashes(extra + behind) != 4 <==>
            Harmless(extra)
  {
    Concatenated(extra, behind);
    OnlySlashesVanish(extra);
    SlashesAndTheRest(extra);
    if WithoutSlashes(extra) + hash == hash {
      assert |WithoutSlashes(extra)| == 0;
    }
  }

  /** This one's directory reaches into the path behind theirs. */
  lemma CutOff(dataDir: string, theirs: string, hash: string)
    requires |hash| >= CHUNK_DIR_LENGTH && '/' !in hash
    requires dataDir <= GetHashedFilename(theirs, hash, 0) && |dataDir| > |theirs|
    ensures GetHashFromPath(dataDir, GetHashedFilename(theirs, hash, 0)) == (hash, 0) <==> dataDir == theirs + "/"
  {
    var path, behind := GetHashedFilename(theirs, hash, 0), Behind(Parts(hash, 0));
    ReadOffPath(theirs, hash, 0);
    Splice(dataDir, theirs, path, behind);
    var d, rest := dataDir[|theirs|..], path[|dataDir|..];
    StartOfBehind(hash);
    CutBehind(behind, d, rest, hash);
    assert |d| == 1 <==> d == "/";
  }

  lemma Splice(front: string, theirs: string, path: string, behind: string)
    requires path == theirs + behind && front <= path && |front| > |theirs|
    ensures front == theirs + front[|theirs|..] && behind == front[|theirs|..] + path[|front|..]
  {
    assert front == path[..|front|] && theirs == path[..|theirs|];
    assert front[..|theirs|] == theirs;
    assert behind == path[|theirs|..];
  }

  lemma StartOfBehind(hash: string)
    requires |hash| >= CHUNK_DIR_LENGTH && '/' !in hash
    ensures var behind := Behind(Parts(hash, 0)); |behind| > 1 && behind[0] == '/' && behind[1] != '/'
  {
    assert Parts(hash, 0)[0] == hash[..CHUNK_DIR_LENGTH];
    assert hash[0] in hash;
  }

  lemma CutBehind(behind: string, d: string, rest: string, hash: string)
    requires behind == d + rest && |d| > 0 && |behind| > 1 && behind[0] == '/' && behind[1] != '/'
    requires Slashes(behind) == 2 && WithoutSlashes(behind) == hash
    ensures d[0] == '/'
    ensures WithoutSlashes(rest) == hash && Slashes(rest) != 3 && Slashes(rest) != 4 <==> |d| == 1
  {
    Concatenated(d, rest);
    OnlySlashesVanish(d);
    assert d[0] == behind[0];
    if |d| > 1 {
      assert d[1] == behind[1] && d[1] in d;
      assert |WithoutSlashes(rest)| < |hash|;
    } else {
      assert d == ['/'];
    }
  }
}
