/**
 * `Archiver`: which archive source folder a file belongs to, and the path it is moved
 * to, `archiveTo/year/relativePath`. The rename itself and reading the file's
 * modification year are host calls; the year is a parameter here.
 */
module Archiver {
  import opened Wrappers
  import opened Strings

  /** `p.substring(0, p.length - cut)`: `substring` clamps a negative end to 0. */
  function DropLast(p: string, cut: nat): (r: string)
    ensures |p| >= cut ==> r == p[..|p| - cut]
    ensures |p| < cut ==> r == ""
  {
    if |p| >= cut then p[..|p| - cut] else ""
  }

  /** The `map` callback of `join` for element `i` of `n`: one leading `/` is removed
      unless it is the first element, then `cut` characters are removed from the end
      of an element that ends with `/`, unless it is the last element. */
  function Element(p: string, i: nat, n: nat, cut: nat): string {
    var p1 := if i != 0 && StartsWith(p, "/") then p[1..] else p;
    if i != n - 1 && EndsWith(p1, "/") then DropLast(p1, cut) else p1
  }

  function Elements(ps: seq<string>, cut: nat): (r: seq<string>)
    ensures |r| == |ps| && forall i :: 0 <= i < |ps| ==> r[i] == Element(ps[i], i, |ps|, cut)
  {
    seq(|ps|, i requires 0 <= i < |ps| => Element(ps[i], i, |ps|, cut))
  }

  /** `join` as written: `substring(0, length - 2)` removes the trailing `/` and the
      character before it. */
  function JoinAsWritten(ps: seq<string>): string {
    Join(Elements(ps, 2), "/")
  }

  /** `join` as intended: only the trailing `/` is removed. */
  function JoinPath(ps: seq<string>): string {
    Join(Elements(ps, 1), "/")
  }

  /** Three path elements, joined. */
  lemma JoinThree(a: string, b: string, c: string, cut: nat)
    ensures Join(Elements([a, b, c], cut), "/") ==
      Element(a, 0, 3, cut) + "/" + Element(b, 1, 3, cut) + "/" + Element(c, 2, 3, cut)
  {
    var es := Elements([a, b, c], cut);
    assert es[1..][1..] == es[2..] == [es[2]];
    assert Join(es[1..], "/") == es[1] + "/" + Join(es[2..], "/");
    assert Join(es, "/") == es[0] + "/" + Join(es[1..], "/");
  }

  /** With the archive folder written with a trailing slash, the code as written loses
      the last character of the folder name, where the intended `join` keeps it. */
  lemma JoinAsWrittenDropsLetter(folder: string, year: string, path: string)
    requires |folder| >= 1 && !EndsWith(folder, "/") && Bare(year) && !StartsWith(path, "/")
    ensures JoinAsWritten([folder + "/", year, path]) == folder[..|folder| - 1] + "/" + year + "/" + path
    ensures JoinPath([folder + "/", year, path]) == folder + "/" + year + "/" + path
    ensures JoinAsWritten([folder + "/", year, path]) != JoinPath([folder + "/", year, path])
  {
    JoinThree(folder + "/", year, path, 2);
    JoinThree(folder + "/", year, path, 1);
    var f := folder + "/";
    assert EndsWith(f, "/");
    assert f[..|f| - 1] == folder && f[..|f| - 2] == folder[..|folder| - 1];
    ElementBare(year, 1, 3, 2);
    ElementBare(year, 1, 3, 1);
    var w := folder[..|folder| - 1] + "/" + year + "/" + path;
    var j := folder + "/" + year + "/" + path;
    assert |w| < |j|;
  }

  /** An instance: `join("Archive/", "2023", "a.md")` is `Archiv/2023/a.md`. */
  lemma ArchiveFolderInstance()
    ensures JoinAsWritten(["Archive/", "2023", "a.md"]) == "Archiv/2023/a.md"
  {
    assert "Archive" + "/" == "Archive/";
    assert EndsWith("Archive", "/") == false;
    DigitsBare("2023");
    assert !StartsWith("a.md", "/");
    JoinAsWrittenDropsLetter("Archive", "2023", "a.md");
    assert "Archive"[..6] == "Archiv";
  }

  /** A path element with no slash at either end is kept as it is. */
  predicate Bare(p: string) {
    !StartsWith(p, "/") && !EndsWith(p, "/")
  }

  lemma ElementBare(p: string, i: nat, n: nat, cut: nat)
    requires Bare(p)
    ensures Element(p, i, n, cut) == p
  {
  }

  /** A bare element with a slash added at its inner end is read as the bare one. */
  lemma ElementSlashed(p: string, i: nat, n: nat)
    requires Bare(p)
    ensures i < n - 1 ==> Element(p + "/", i, n, 1) == p
    ensures i > 0 ==> Element("/" + p, i, n, 1) == p
  {
    if p == [] {
      assert p + "/" == "/" == "/" + p;
      assert "/"[1..] == "" && "/"[..0] == "";
    } else {
      assert (p + "/")[..1] == p[..1];
      assert (p + "/")[..|p|] == p;
      assert ("/" + p)[1..] == p;
      assert ("/" + p)[|"/" + p| - 1..] == p[|p| - 1..];
    }
  }

  /** The digits of a number are a bare path element. */
  lemma DigitsBare(y: string)
    requires |y| >= 1 && AllDigits(y)
    ensures Bare(y)
  {
    assert IsDigit(y[0]) && IsDigit(y[|y| - 1]);
    assert y[..1] == [y[0]] && y[|y| - 1..] == [y[|y| - 1]];
  }

  /** Changing one element to another that `join` reads the same way does not change
      the joined path. */
  lemma JoinPathReplace(ps: seq<string>, i: nat, x: string)
    requires i < |ps| && Element(x, i, |ps|, 1) == Element(ps[i], i, |ps|, 1)
    ensures JoinPath(ps[i := x]) == JoinPath(ps)
  {
    var q := ps[i := x];
    forall k | 0 <= k < |q|
      ensures Elements(q, 1)[k] == Elements(ps, 1)[k]
    {
      if k != i {
        assert q[k] == ps[k];
      }
    }
    assert Elements(q, 1) == Elements(ps, 1);
  }

  /** The intended `join` glues elements without slashes at their ends with `/`, and
      a trailing slash on any element but the last, or a leading one on any element
      but the first, is the one `/` between them. */
  lemma JoinPathSlashes(ps: seq<string>, i: nat)
    requires i < |ps| && Bare(ps[i])
    ensures i < |ps| - 1 ==> JoinPath(ps[i := ps[i] + "/"]) == JoinPath(ps)
    ensures i > 0 ==> JoinPath(ps[i := "/" + ps[i]]) == JoinPath(ps)
  {
    var p := ps[i];
    ElementBare(p, i, |ps|, 1);
    ElementSlashed(p, i, |ps|);
    if i < |ps| - 1 {
      JoinPathReplace(ps, i, p + "/");
    }
    if i > 0 {
      JoinPathReplace(ps, i, "/" + p);
    }
  }

  /** When every element is bare the intended `join` is the plain join with `/`. */
  lemma JoinPathBare(ps: seq<string>)
    requires forall i :: 0 <= i < |ps| ==> Bare(ps[i])
    ensures JoinPath(ps) == Join(ps, "/")
  {
    assert Elements(ps, 1) == ps;
  }

  /** `getArchiveFrom`: the first source folder that is a proper prefix of the path. */
  function GetArchiveFrom(archiveFrom: seq<string>, path: string): (r: Option<string>)
    ensures r.Some? ==> r.value in archiveFrom && path != r.value && StartsWith(path, r.value)
    ensures r.None? <==> forall i :: 0 <= i < |archiveFrom| ==> path == archiveFrom[i] || !StartsWith(path, archiveFrom[i])
  {
    if archiveFrom == [] then None
    else if path != archiveFrom[0] && StartsWith(path, archiveFrom[0]) then Some(archiveFrom[0])
    else GetArchiveFrom(archiveFrom[1..], path)
  }

  /** The folder found is the first one that qualifies: every folder before it is the
      path itself or not a prefix of it. */
  lemma {:induction false} GetArchiveFromFirst(archiveFrom: seq<string>, path: string)
    requires GetArchiveFrom(archiveFrom, path).Some?
    ensures exists i :: 0 <= i < |archiveFrom| && archiveFrom[i] == GetArchiveFrom(archiveFrom, path).value &&
                        forall j :: 0 <= j < i ==> path == archiveFrom[j] || !StartsWith(path, archiveFrom[j])
  {
    if path != archiveFrom[0] && StartsWith(path, archiveFrom[0]) {
      assert archiveFrom[0] == GetArchiveFrom(archiveFrom, path).value;
    } else {
      var tail := archiveFrom[1..];
      GetArchiveFromFirst(tail, path);
      var i :| 0 <= i < |tail| && tail[i] == GetArchiveFrom(tail, path).value &&
        forall j :: 0 <= j < i ==> path == tail[j] || !StartsWith(path, tail[j]);
      assert archiveFrom[i + 1] == GetArchiveFrom(archiveFrom, path).value;
      forall j | 0 <= j < i + 1
        ensures path == archiveFrom[j] || !StartsWith(path, archiveFrom[j])
      {
        if j > 0 {
          assert archiveFrom[j] == tail[j - 1];
        }
      }
    }
  }

  /** The destination computed in `archiveAsync`: `archiveTo`, the year and the path
      with its first occurrence of `archiveFrom` removed, glued by `join` as written. */
  function ArchiveDestination(archiveFrom: string, archiveTo: string, path: string, year: nat): string {
    var relativePath := ReplaceFirst(path, archiveFrom, "");
    JoinAsWritten([archiveTo, NatToString(year), relativePath])
  }

  /** The same destination glued by the intended `join`. */
  function ArchiveDestinationIntended(archiveFrom: string, archiveTo: string, path: string, year: nat): string {
    var relativePath := ReplaceFirst(path, archiveFrom, "");
    JoinPath([archiveTo, NatToString(year), relativePath])
  }

  /** For a file under its archive source folder, the removed occurrence is the prefix.
      As written, the destination is the archive folder, cut by two characters when it
      ends with `/`, then the year and the rest of the path, each met by one `/`. */
  lemma ArchiveDestinationUnder(archiveFrom: string, archiveTo: string, path: string, year: nat)
    requires StartsWith(path, archiveFrom)
    ensures var rest := path[|archiveFrom|..];
      var to := if EndsWith(archiveTo, "/") then DropLast(archiveTo, 2) else archiveTo;
      var rel := if StartsWith(rest, "/") then rest[1..] else rest;
      ArchiveDestination(archiveFrom, archiveTo, path, year) == to + "/" + NatToString(year) + "/" + rel
  {
    var rest := RemovePrefix(archiveFrom, path);
    var y := NatToString(year);
    DigitsBare(y);
    ElementBare(y, 1, 3, 2);
    JoinThree(archiveTo, y, rest, 2);
  }

  /** With the intended `join`, the archive folder loses only its trailing `/`. */
  lemma ArchiveDestinationIntendedUnder(archiveFrom: string, archiveTo: string, path: string, year: nat)
    requires StartsWith(path, archiveFrom)
    ensures var rest := path[|archiveFrom|..];
      var to := if EndsWith(archiveTo, "/") then archiveTo[..|archiveTo| - 1] else archiveTo;
      var rel := if StartsWith(rest, "/") then rest[1..] else rest;
      ArchiveDestinationIntended(archiveFrom, archiveTo, path, year) == to + "/" + NatToString(year) + "/" + rel
  {
    var rest := RemovePrefix(archiveFrom, path);
    var y := NatToString(year);
    DigitsBare(y);
    ElementBare(y, 1, 3, 1);
    JoinThree(archiveTo, y, rest, 1);
  }

  /** Removing the first occurrence of a prefix of the path leaves the rest of it. */
  lemma RemovePrefix(archiveFrom: string, path: string) returns (rest: string)
    requires StartsWith(path, archiveFrom)
    ensures rest == path[|archiveFrom|..] && ReplaceFirst(path, archiveFrom, "") == rest
  {
    assert OccursAt(path, archiveFrom, 0);
    assert IndexOf(path, archiveFrom) == Some(0);
    rest := path[|archiveFrom|..];
  }

  lemma Year2023()
    ensures NatToString(2023) == "2023"
  {
    assert NatToString(2) == "2";
    assert NatToString(20) == "20";
    assert NatToString(202) == "202";
  }

  /** The pieces of the instance below. */
  lemma InstancePieces(from: string, to: string, path: string)
    requires from == "Inbox" && to == "Archive/" && path == "Inbox/a.md"
    ensures StartsWith(path, from) && path[|from|..] == "/a.md"
    ensures StartsWith("/a.md", "/") && "/a.md"[1..] == "a.md"
    ensures EndsWith(to, "/") && DropLast(to, 2) == "Archiv" && to[..|to| - 1] == "Archive"
  {
    assert path[..5] == "Inbox";
    assert "/a.md"[..1] == "/";
    assert to[7..] == "/";
  }

  /** An instance: archiving `Inbox/a.md` from `Inbox` to `Archive/` in 2023 moves it to
      `Archiv/2023/a.md`. */
  lemma ArchiveInstance(from: string, to: string, path: string)
    requires from == "Inbox" && to == "Archive/" && path == "Inbox/a.md"
    ensures ArchiveDestination(from, to, path, 2023) == "Archiv/2023/a.md"
  {
    Year2023();
    InstancePieces(from, to, path);
    ArchiveDestinationUnder(from, to, path, 2023);
  }

  /** The same instance with the intended `join` gives `Archive/2023/a.md`. */
  lemma ArchiveInstanceIntended(from: string, to: string, path: string)
    requires from == "Inbox" && to == "Archive/" && path == "Inbox/a.md"
    ensures ArchiveDestinationIntended(from, to, path, 2023) == "Archive/2023/a.md"
  {
    Year2023();
    InstancePieces(from, to, path);
    ArchiveDestinationIntendedUnder(from, to, path, 2023);
  }
}
