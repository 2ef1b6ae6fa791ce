/**
 Which paths stay in the repository: `outside_repository`, which counts a depth over the steps of a path,
 `resolves_outside`, which reads a path from a manifest's directory, and `is_repository_path`. Proved: the counter
 agrees with resolving the steps on a stack, from the root and from any directory, and the paths the third accepts are
 exactly as inside as they are free of colons.
 */
module RepositoryPaths {
  import opened Basics

  // ---------------------------------------------------------------- text

  /** `replace("\\", "/")`. */
  function Normalized(path: string): (r: string)
    ensures |r| == |path|
    ensures forall i | 0 <= i < |path| :: r[i] == if path[i] == '\\' then '/' else path[i]
  {
    seq(|path|, i requires 0 <= i < |path| => if path[i] == '\\' then '/' else path[i])
  }

  function Join(parts: seq<string>): string
    requires parts != []
  {
    if |parts| == 1 then parts[0] else parts[0] + "/" + Join(parts[1..])
  }

  /** `split(":", 1)[0]`. */
  function Stem(part: string): string {
    if part == "" || part[0] == ':' then "" else [part[0]] + Stem(part[1..])
  }

  /** `rstrip(". ")`. */
  function Stripped(part: string): string {
    if part != "" && part[|part| - 1] in ". " then Stripped(part[..|part| - 1]) else part
  }

  /** `lower()`; no letter outside ASCII has `g`, `i` or `t` alone as its lower case. */
  function Lower(part: string): string {
    seq(|part|, i requires 0 <= i < |part| => if 'A' <= part[i] <= 'Z' then part[i] - 'A' + 'a' else part[i])
  }

  predicate IsGitAdministration(part: string) {
    IsGitName(Stripped(Lower(Stem(part))))
  }

  predicate IsGitName(name: string) {
    name == ".git" || name == "git~1"
  }

  /** A part that names nothing: the step to where one is, or out of it. */
  predicate IsStep(part: string) {
    part == "" || part == "." || part == ".."
  }

  predicate IsWindowsDotName(part: string) {
    !IsStep(part) && (Stem(part) == "" || Stem(part) != Stripped(Stem(part)))
  }

  predicate IsLetter(c: char) {
    'A' <= c <= 'Z' || 'a' <= c <= 'z'
  }

  predicate NamesADrive(path: string) {
    |path| >= 2 && IsLetter(path[0]) && path[1] == ':'
  }

  predicate IsAbsolute(path: string) {
    path != "" && path[0] == '/'
  }

  // ---------------------------------------------------------------- resolving steps

  datatype Place = Outside | At(names: seq<string>)

  /** One step of a path: `..` leaves the innermost directory, and leaves the repository from its root. */
  function Step(place: Place, part: string): Place {
    if place.Outside? then Outside
    else if part == ".." then (if place.names == [] then Outside else At(place.names[..|place.names| - 1]))
    else if IsStep(part) then place
    else At(place.names + [part])
  }

  function Walk(place: Place, parts: seq<string>): Place {
    if parts == [] then place else Step(Walk(place, parts[..|parts| - 1]), parts[|parts| - 1])
  }

  /** No part is git's own directory, spelled otherwise on Windows or an NTFS stream. */
  predicate AllPlain(parts: seq<string>) {
    forall i | 0 <= i < |parts| :: IsPlain(parts[i])
  }

  predicate IsPlain(part: string) {
    !IsGitAdministration(part) && !IsWindowsDotName(part) && ':' !in part
  }

  /** `path` is relative, all its parts are plain, and its steps never leave the repository from `place`. */
  predicate StaysInside(place: Place, path: string) {
    var steps := Normalized(path);
    !IsAbsolute(steps) && !NamesADrive(steps) && AllPlain(SplitText(steps, '/'))
        && Walk(place, SplitText(steps, '/')).At?
  }

  /** `outside_repository`. */
  method OutsideRepository(path: string) returns (outside: bool)
    ensures outside <==> !StaysInside(At([]), path)
  {
    var normalized := Normalized(path);
    if IsAbsolute(normalized) || NamesADrive(normalized) {
      return true;
    }
    outside := AnyPartLeaves(SplitText(normalized, '/'));
  }

  /** Its loop: a counter for the stack. */
  method AnyPartLeaves(parts: seq<string>) returns (leaves: bool)
    ensures leaves <==> !(AllPlain(parts) && Walk(At([]), parts).At?)
  {
    var depth := 0;
    for n := 0 to |parts|
      invariant AllPlain(parts[..n])
      invariant Walk(At([]), parts[..n]).At? && |Walk(At([]), parts[..n]).names| == depth
    {
      PlainSoFar(parts, n);
      if IsGitAdministration(parts[n]) || IsWindowsDotName(parts[n]) || ':' in parts[n] {
        return true;
      }
      DepthAfter(parts, n);
      if parts[n] == ".." {
        depth := depth - 1;
        if depth < 0 {
          OutsideForGood(At([]), parts, n + 1);
          return true;
        }
      } else if parts[n] != "" && parts[n] != "." {
        depth := depth + 1;
      }
    }
    assert parts[..|parts|] == parts;
    return false;
  }

  lemma PlainSoFar(parts: seq<string>, n: nat)
    requires n < |parts|
    ensures AllPlain(parts[..n + 1]) <==> AllPlain(parts[..n]) && IsPlain(parts[n])
    ensures AllPlain(parts) ==> IsPlain(parts[n])
  {
    assert parts[..n + 1] == parts[..n] + [parts[n]];
  }

  lemma DepthAfter(parts: seq<string>, n: nat)
    requires n < |parts| && Walk(At([]), parts[..n]).At?
    ensures var before, after := Walk(At([]), parts[..n]), Walk(At([]), parts[..n + 1]);
            if parts[n] == ".." && before.names == [] then after.Outside?
            else
              && after.At?
              && |after.names| == |before.names| + if parts[n] == ".." then -1 else if IsStep(parts[n]) then 0 else 1
  {
    assert parts[..n + 1][..n] == parts[..n];
  }

  lemma {:induction false} OutsideForGood(place: Place, parts: seq<string>, n: nat)
    requires n <= |parts| && Walk(place, parts[..n]).Outside?
    ensures Walk(place, parts).Outside?
  {
    if n == |parts| {
      assert parts[..n] == parts;
    } else {
      var before := parts[..|parts| - 1];
      assert before[..n] == parts[..n];
      OutsideForGood(place, before, n);
    }
  }

  /** A path that ends inside was inside at every step of the way. */
  lemma InsideAtEveryStep(path: string, n: nat)
    requires StaysInside(At([]), path) && n <= |SplitText(Normalized(path), '/')|
    ensures Walk(At([]), SplitText(Normalized(path), '/')[..n]).At?
  {
    if Walk(At([]), SplitText(Normalized(path), '/')[..n]).Outside? {
      OutsideForGood(At([]), SplitText(Normalized(path), '/'), n);
    }
  }

  // ---------------------------------------------------------------- from a manifest's directory

  lemma {:induction false} SplitAppends(a: string, b: string)
    ensures SplitText(a + "/" + b, '/') == SplitText(a, '/') + SplitText(b, '/')
  {
    var whole := a + "/" + b;
    if a == "" {
      assert whole[1..] == b;
    } else {
      assert whole[0] == a[0] && whole[1..] == a[1..] + "/" + b;
      SplitAppends(a[1..], b);
    }
  }

  lemma {:induction false} WalkAppends(place: Place, a: seq<string>, b: seq<string>)
    ensures Walk(place, a + b) == Walk(Walk(place, a), b)
  {
    if b == [] {
      assert a + b == a;
    } else {
      assert (a + b)[..|a + b| - 1] == a + b[..|b| - 1];
      WalkAppends(place, a, b[..|b| - 1]);
    }
  }

  lemma {:induction false} NoWayBack(parts: seq<string>)
    ensures Walk(Outside, parts).Outside?
  {
    if parts != [] {
      NoWayBack(parts[..|parts| - 1]);
    }
  }

  lemma PlainAppends(a: seq<string>, b: seq<string>)
    ensures AllPlain(a + b) <==> AllPlain(a) && AllPlain(b)
  {
    var all := a + b;
    if AllPlain(all) {
      forall i | 0 <= i < |a|
        ensures IsPlain(a[i])
      {
        assert all[i] == a[i];
      }
      forall i | 0 <= i < |b|
        ensures IsPlain(b[i])
      {
        assert all[|a| + i] == b[i];
      }
    }
  }

  /** The place a directory of the repository names. */
  function PlaceOf(directory: string): Place {
    Walk(At([]), SplitText(Normalized(directory), '/'))
  }

  /** A path joined to a directory stays inside exactly when the directory does and the path does from there. */
  lemma JoinedStaysInside(directory: string, path: string)
    requires directory != ""
    requires !IsAbsolute(Normalized(path)) && !NamesADrive(Normalized(path))
    ensures StaysInside(At([]), directory + "/" + Normalized(path)) <==>
              StaysInside(At([]), directory) && StaysInside(PlaceOf(directory), path)
  {
    var before, steps := Normalized(directory), Normalized(path);
    assert Normalized(directory + "/" + steps) == before + "/" + steps;
    SplitAppends(before, steps);
    PlainAppends(SplitText(before, '/'), SplitText(steps, '/'));
    WalkAppends(At([]), SplitText(before, '/'), SplitText(steps, '/'));
    NoWayBack(SplitText(steps, '/'));
    var whole := before + "/" + steps;
    assert whole[0] == before[0];
    assert whole[1] == if |before| > 1 then before[1] else '/';
  }

  lemma TheRootItself(path: string)
    ensures StaysInside(At([]), ".") && PlaceOf(".") == At([])
    ensures StaysInside(At([]), Normalized(path)) <==> StaysInside(At([]), path)
  {
    assert Normalized(Normalized(path)) == Normalized(path);
    assert Normalized(".") == ".";
    SplitOfAName(".");
    assert Walk(At([]), ["."]) == Step(Walk(At([]), []), ".");
    assert Stem(".") == ['.'] + Stem("") && Stripped(Lower(".")) == Stripped("");
  }

  /** `resolves_outside`: a path in a manifest is judged from the place of its directory. */
  method ResolvesOutside(directory: string, path: string) returns (outside: bool)
    ensures outside <==> directory == "" || !StaysInside(At([]), directory) || !StaysInside(PlaceOf(directory), path)
  {
    var normalized := Normalized(path);
    if IsAbsolute(normalized) || NamesADrive(normalized) {
      return true;
    }
    if directory == "." {
      TheRootItself(path);
      outside := OutsideRepository(normalized);
    } else {
      outside := OutsideRepository(directory + "/" + normalized);
      if directory != "" {
        JoinedStaysInside(directory, path);
      } else {
        assert Normalized("/" + normalized)[0] == '/';
        assert directory + "/" + normalized == "/" + normalized;
      }
    }
  }

  // ---------------------------------------------------------------- what an accepted path names

  /** A name every platform reads as it is written, and that is not git's. */
  predicate IsProperName(name: string) {
    !IsStep(name) && ':' !in name && Stripped(name) == name && !IsGitName(Lower(name))
  }

  predicate AllProper(place: Place) {
    place.At? ==> forall i | 0 <= i < |place.names| :: IsProperName(place.names[i])
  }

  lemma {:induction false} NoColonNoStem(part: string)
    requires ':' !in part
    ensures Stem(part) == part
  {
    if part != "" {
      assert ':' !in part[1..];
      NoColonNoStem(part[1..]);
    }
  }

  lemma PlainIsProper(part: string)
    requires IsPlain(part) && !IsStep(part)
    ensures IsProperName(part)
  {
    NoColonNoStem(part);
  }

  /** An accepted path names entries inside the repository, none of them git's and none spelled otherwise on Windows. */
  lemma {:induction false} AcceptedNamesAreProper(place: Place, parts: seq<string>)
    requires AllPlain(parts) && AllProper(place)
    ensures AllProper(Walk(place, parts))
  {
    if parts != [] {
      var before, last := parts[..|parts| - 1], parts[|parts| - 1];
      AcceptedNamesAreProper(place, before);
      if !IsStep(last) {
        PlainIsProper(last);
      }
    }
  }

  // ---------------------------------------------------------------- paths as git writes them

  const MAX_PATH := 4096

  /** The parts of `PurePosixPath(value)`, for a relative path. */
  function Names(parts: seq<string>): seq<string> {
    if parts == [] then [] else (if parts[0] == "" || parts[0] == "." then [] else [parts[0]]) + Names(parts[1..])
  }

  /** `PurePosixPath(value).as_posix()`, for a relative path. */
  function AsPosix(value: string): string {
    var names := Names(SplitText(value, '/'));
    if names == [] then "." else Join(names)
  }

  /** `is_repository_path`, on text. */
  predicate IsRepositoryPath(value: string) {
    && value != "" && |value| <= MAX_PATH && (forall i | 0 <= i < |value| :: ' ' <= value[i] <= '~')
    && !IsAbsolute(value)
    && var names := Names(SplitText(value, '/'));
       && ".." !in names && '\\' !in value && AsPosix(value) == value
       && value[0] != ':' && !NamesADrive(value)
       && '*' !in value && '?' !in value && '[' !in value
       && forall i | 0 <= i < |names| :: !IsGitAdministration(names[i]) && !IsWindowsDotName(names[i])
  }

  lemma {:induction false} SplitOfAName(name: string)
    requires '/' !in name
    ensures SplitText(name, '/') == [name]
  {
    if name != "" {
      assert '/' !in name[1..];
      SplitOfAName(name[1..]);
      assert [name[0]] + name[1..] == name;
    }
  }

  lemma {:induction false} SplitHoldsNoSlash(path: string)
    ensures forall i | 0 <= i < |SplitText(path, '/')| :: '/' !in SplitText(path, '/')[i]
  {
    if path != "" {
      SplitHoldsNoSlash(path[1..]);
    }
  }

  lemma {:induction false} NamesAreParts(parts: seq<string>)
    ensures forall i | 0 <= i < |Names(parts)| ::
              Names(parts)[i] in parts && Names(parts)[i] != "" && Names(parts)[i] != "."
  {
    if parts != [] {
      NamesAreParts(parts[1..]);
    }
  }

  lemma {:induction false} SplitUndoesJoin(names: seq<string>)
    requires names != [] && forall i | 0 <= i < |names| :: '/' !in names[i]
    ensures SplitText(Join(names), '/') == names
  {
    SplitOfAName(names[0]);
    if |names| > 1 {
      SplitUndoesJoin(names[1..]);
      SplitAppends(names[0], Join(names[1..]));
    }
  }

  /** A path git would write is split into just its names. */
  lemma WrittenAsItIs(value: string)
    requires AsPosix(value) == value && value != "."
    ensures SplitText(value, '/') == Names(SplitText(value, '/'))
  {
    var parts := SplitText(value, '/');
    var names := Names(parts);
    NamesAreParts(parts);
    SplitHoldsNoSlash(value);
    assert forall i | 0 <= i < |names| :: '/' !in names[i];
    SplitUndoesJoin(names);
  }

  lemma {:induction false} NamesOnlyDescend(names: seq<string>, at: seq<string>)
    requires forall i | 0 <= i < |names| :: !IsStep(names[i])
    ensures Walk(At(at), names) == At(at + names)
  {
    if names != [] {
      NamesOnlyDescend(names[..|names| - 1], at);
      assert at + names == at + names[..|names| - 1] + [names[|names| - 1]];
    }
  }

  lemma {:induction false} ColonInAPart(path: string)
    ensures ':' in path <==> exists i | 0 <= i < |SplitText(path, '/')| :: ':' in SplitText(path, '/')[i]
  {
    if path != "" {
      var parts, rest := SplitText(path, '/'), SplitText(path[1..], '/');
      ColonInAPart(path[1..]);
      if i :| 0 <= i < |rest| && ':' in rest[i] {
        assert ':' in parts[if path[0] == '/' then i + 1 else i];
      }
      if path[0] == ':' {
        assert ':' in parts[0];
      }
      if i :| 0 <= i < |parts| && ':' in parts[i] {
        if path[0] != '/' {
          assert i > 0 ==> parts[i] == rest[i];
        } else {
          assert i > 0 && parts[i] == rest[i - 1];
        }
      }
    }
  }

  /** Its parts are its names, or it is the root itself. */
  lemma PartsOfARepositoryPath(value: string)
    requires IsRepositoryPath(value)
    ensures var parts := SplitText(value, '/');
            value == "." || (parts == Names(parts) && forall i | 0 <= i < |parts| :: !IsStep(parts[i]))
  {
    if value != "." {
      WrittenAsItIs(value);
      var names := Names(SplitText(value, '/'));
      NamesAreParts(SplitText(value, '/'));
      forall i | 0 <= i < |names|
        ensures !IsStep(names[i])
      {
        assert names[i] in names;
      }
    }
  }

  /** It names the entry it is written as. */
  lemma NamesWhatItSays(value: string)
    ensures IsRepositoryPath(value) ==> PlaceOf(value) == At(Names(SplitText(value, '/')))
  {
    if IsRepositoryPath(value) {
      assert Normalized(value) == value;
      PartsOfARepositoryPath(value);
      if value == "." {
        TheRootItself(value);
        SplitOfAName(value);
      } else {
        NamesOnlyDescend(SplitText(value, '/'), []);
        assert [] + SplitText(value, '/') == SplitText(value, '/');
      }
    }
  }

  lemma OnlyAColonIsRefused(value: string)
    requires IsRepositoryPath(value) && value != "."
    ensures AllPlain(SplitText(value, '/')) <==> ':' !in value
  {
    PartsOfARepositoryPath(value);
    ColonInAPart(value);
    if ':' in value {
      var i :| 0 <= i < |SplitText(value, '/')| && ':' in SplitText(value, '/')[i];
      assert !IsPlain(SplitText(value, '/')[i]);
    }
  }

  /** What `is_repository_path` accepts is inside the repository exactly when it holds no colon. */
  lemma RepositoryPathsStayInside(value: string)
    ensures IsRepositoryPath(value) ==> (StaysInside(At([]), value) <==> ':' !in value)
  {
    if IsRepositoryPath(value) {
      assert Normalized(value) == value;
      NamesWhatItSays(value);
      if value == "." {
        TheRootItself(value);
      } else {
        OnlyAColonIsRefused(value);
      }
    }
  }

  /** A colon further on than a drive's is a name to git, so the two checks do differ. */
  lemma AStreamIsARepositoryPath(value: string)
    requires value == "ab:c"
    ensures IsRepositoryPath(value) && !StaysInside(At([]), value)
  {
    AStreamIsNoOtherName(value);
    SplitOfAName(value);
    NamesOfOne(value);
    RepositoryPathsStayInside(value);
  }

  lemma NamesOfOne(name: string)
    requires !IsStep(name)
    ensures Names([name]) == [name]
  {
  }

  lemma AStreamIsNoOtherName(value: string)
    requires value == "ab:c"
    ensures !IsGitAdministration(value) && !IsWindowsDotName(value)
  {
    assert value[1..][1..] == ":c";
    assert Stem(value[1..][1..]) == "";
    assert Stem(value[1..]) == "b";
    assert Stem(value) == "ab";
    assert Lower("ab") == "ab";
  }
}
