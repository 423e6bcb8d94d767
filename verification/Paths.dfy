/**
  Paths in a blob volume: split into names at slashes and backslashes, with . and .. resolved, and
  joined again.
 */
module Paths {
  predicate IsDelim(c: char) { c == '/' || c == '\\' }

  /** The first delimiter from a position on, or the end. */
  function NextDelim(path: string, p: nat): (q: nat)
    requires p <= |path|
    ensures p <= q <= |path| && (q < |path| ==> IsDelim(path[q]))
    ensures forall i :: p <= i < q ==> !IsDelim(path[i])
    decreases |path| - p
  {
    if p == |path| || IsDelim(path[p]) then p else NextDelim(path, p + 1)
  }

  /** The names between delimiters from a position on, empty ones left out. */
  function Names(path: string, p: nat): seq<string>
    requires p <= |path|
    decreases |path| - p
  {
    if p == |path| then []
    else
      var q := NextDelim(path, p);
      (if q > p then [path[p..q]] else []) + Names(path, if q == |path| then q else q + 1)
  }

  /** A name resolved against those before it. */
  function Resolve(parts: seq<string>, name: string): seq<string> {
    if name == ".." && |parts| > 0 then parts[..|parts| - 1]
    else if name != "." then parts + [name] else parts
  }

  function ResolveAll(parts: seq<string>, names: seq<string>): seq<string>
    decreases |names|
  {
    if names == [] then parts else ResolveAll(Resolve(parts, names[0]), names[1..])
  }

  method SplitPath(path: string) returns (result: seq<string>)
    ensures result == ResolveAll([], Names(path, 0)) && Resolved(result)
  {
    hide Names, ResolveAll, Resolve;
    result := [];
    if path == "" {
      NamesEnd(path, []);
      return;
    }
    var offset := 0;
    if IsDelim(path[0]) {
      NamesAfterDelim(path, 0);
      offset := 1;
    }
    while offset < |path|
      invariant 0 <= offset <= |path| && Resolved(result)
      invariant ResolveAll(result, Names(path, offset)) == ResolveAll([], Names(path, 0))
      decreases |path| - offset
    {
      var end := NextDelim(path, offset);
      if end > offset {
        var name := path[offset..end];
        NamesAfterName(path, offset, end, name, result);
        ResolveOne(result, name);
        if name == ".." && |result| > 0 {
          result := result[..|result| - 1];
        } else if name != "." {
          result := result + [name];
        }
      }
      if end < |path| {
        NamesAfterDelim(path, end);
      }
      offset := if end == |path| then end else end + 1;
    }
    NamesEnd(path, result);
  }

  lemma NamesEnd(path: string, parts: seq<string>)
    ensures Names(path, |path|) == [] && ResolveAll(parts, []) == parts
  {
  }

  lemma NamesAfterDelim(path: string, p: nat)
    requires p < |path| && IsDelim(path[p])
    ensures Names(path, p) == Names(path, p + 1)
  {
  }

  lemma NamesAfterName(path: string, p: nat, q: nat, name: string, parts: seq<string>)
    requires p < q <= |path| && q == NextDelim(path, p) && name == path[p..q]
    ensures Names(path, p) == [name] + Names(path, q)
    ensures ResolveAll(parts, Names(path, p)) == ResolveAll(Resolve(parts, name), Names(path, q))
  {
    hide Resolve;
    if q < |path| {
      NamesAfterDelim(path, q);
    }
    assert Names(path, p) == [name] + Names(path, q);
    assert ([name] + Names(path, q))[1..] == Names(path, q);
  }

  lemma ResolveOne(parts: seq<string>, name: string)
    ensures Resolve(parts, name) ==
            if name == ".." && |parts| > 0 then parts[..|parts| - 1] else if name != "." then parts + [name] else parts
    ensures Resolved(parts) && IsName(name) ==> Resolved(Resolve(parts, name))
  {
  }

  // ---- Resolved paths ----

  ghost predicate IsName(name: string) {
    name != "" && forall i :: 0 <= i < |name| ==> !IsDelim(name[i])
  }

  /** Names without delimiters, no . among them, and .. at most in the first place. */
  ghost predicate Resolved(parts: seq<string>) {
    forall i :: 0 <= i < |parts| ==> IsName(parts[i]) && parts[i] != "." && (parts[i] == ".." ==> i == 0)
  }

  function Joined(parts: seq<string>): string {
    if parts == [] then "" else "/" + parts[0] + Joined(parts[1..])
  }

  /** JoinPaths: the parts from an offset up to a limit, each after a slash. */
  method JoinPaths(parts: seq<string>, offset: nat, len: nat) returns (path: string)
    ensures path == if offset < |parts| && offset < len
                    then Joined(parts[offset..if len < |parts| then len else |parts|])
                    else ""
  {
    path := "";
    var end := if len < |parts| then len else |parts|;
    var i := offset;
    assert i <= end ==> parts[i..i] == [];
    while i < end
      invariant offset <= i && (i <= end || i == offset)
      invariant i <= end ==> path == Joined(parts[offset..i])
      invariant i == offset ==> path == ""
    {
      JoinedMore(parts[offset..i], parts[i]);
      assert parts[offset..i] + [parts[i]] == parts[offset..i + 1];
      path := path + "/" + parts[i];
      i := i + 1;
    }
  }

  lemma {:induction false} JoinedMore(parts: seq<string>, name: string)
    ensures Joined(parts + [name]) == Joined(parts) + "/" + name
  {
    if parts == [] {
      assert ([name])[1..] == [] && parts + [name] == [name];
    } else {
      assert (parts + [name])[1..] == parts[1..] + [name];
      JoinedMore(parts[1..], name);
    }
  }

  /** The text from p on is the joined form of the parts. */
  lemma {:induction false} NamesOfJoined(path: string, p: nat, parts: seq<string>)
    requires p <= |path| && path[p..] == Joined(parts) && forall i :: 0 <= i < |parts| ==> IsName(parts[i])
    ensures Names(path, p) == parts
    decreases |parts|
  {
    hide Names, NextDelim, ResolveAll;
    if parts == [] {
      NamesEnd(path, []);
    } else {
      var name, rest := parts[0], parts[1..];
      var q := p + 1 + |name|;
      JoinedParts(path, p, parts);
      NamesAfterDelim(path, p);
      DelimAfter(path, p + 1, q, name);
      NamesAfterName(path, p + 1, q, name, []);
      NamesOfJoined(path, q, rest);
    }
  }

  lemma JoinedParts(path: string, p: nat, parts: seq<string>)
    requires p <= |path| && path[p..] == Joined(parts) && parts != []
    ensures var q := p + 1 + |parts[0]|;
            && q <= |path| && path[p] == '/' && path[p + 1..q] == parts[0] && path[q..] == Joined(parts[1..])
            && (q < |path| ==> path[q] == '/')
  {
    var name, q := parts[0], p + 1 + |parts[0]|;
    assert path[p] == path[p..][0];
    assert path[p + 1..q] == path[p..][1..1 + |name|];
    assert path[q..] == path[p..][1 + |name|..];
    assert q < |path| ==> path[q] == path[q..][0];
  }

  lemma DelimAfter(path: string, p: nat, q: nat, name: string)
    requires p < q <= |path| && path[p..q] == name && IsName(name) && (q == |path| || IsDelim(path[q]))
    ensures NextDelim(path, p) == q
  {
    forall i | p <= i < q ensures !IsDelim(path[i]) {
      assert path[i] == name[i - p];
    }
  }

  lemma {:induction false} ResolveNothing(parts: seq<string>, names: seq<string>)
    requires Resolved(parts + names)
    ensures ResolveAll(parts, names) == parts + names
    decreases |names|
  {
    if names != [] {
      var name := names[0];
      assert (parts + names)[|parts|] == name;
      assert parts + names == (parts + [name]) + names[1..];
      ResolveNothing(parts + [name], names[1..]);
    }
  }

  /** A resolved path survives joining and splitting. */
  lemma SplitJoined(parts: seq<string>)
    requires Resolved(parts)
    ensures ResolveAll([], Names(Joined(parts), 0)) == parts
  {
    assert Joined(parts)[0..] == Joined(parts) && [] + parts == parts;
    NamesOfJoined(Joined(parts), 0, parts);
    ResolveNothing([], parts);
  }

  /** Splitting gives a resolved path, and splitting what that joins to gives it again. */
  method Normalize(path: string) returns (parts: seq<string>, again: seq<string>)
    ensures again == parts && Resolved(parts)
  {
    parts := SplitPath(path);
    var joined := JoinPaths(parts, 0, |parts|);
    assert parts[0..|parts|] == parts;
    SplitJoined(parts);
    again := SplitPath(joined);
  }
}
