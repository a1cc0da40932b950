/** Unix paths as Rust's `std::path` treats them, on the path's text:
    `PathBuf::join`, the component view (`components()`), `file_name()` and
    `strip_prefix()`. */
module Paths {
  import opened Wrappers
  import opened Text

  predicate IsAbsolute(p: string)
  {
    p != [] && p[0] == '/'
  }

  /** `base.join(rel)`: an absolute `rel` replaces the base; otherwise a
      separator is inserted unless the base is empty or already ends in one. */
  function PathJoin(base: string, rel: string): string
  {
    if IsAbsolute(rel) then rel
    else if base == [] || base[|base| - 1] == '/' then base + rel
    else base + "/" + rel
  }

  /** The pieces between separators that name something: empty pieces
      (repeated or trailing separators) and "." are not components. */
  function NamedPieces(pieces: seq<string>): (r: seq<string>)
    ensures forall i :: 0 <= i < |r| ==> r[i] != [] && r[i] != "." && '/' !in r[i]
    requires forall i :: 0 <= i < |pieces| ==> '/' !in pieces[i]
  {
    if pieces == [] then []
    else if pieces[0] == [] || pieces[0] == "." then NamedPieces(pieces[1..])
    else [pieces[0]] + NamedPieces(pieces[1..])
  }

  /** The normal and parent-directory components of a path, in order
      (the root is recorded by `IsAbsolute`) */
  function Components(p: string): seq<string>
  {
    NamedPieces(SplitOn(p, '/'))
  }

  /** `Path::file_name()`: the last component, unless there is none or it is ".." */
  function FileName(p: string): (r: Option<string>)
    ensures r.Some? ==> r.value != [] && r.value != "." && r.value != ".." && '/' !in r.value
  {
    var cs := Components(p);
    if cs == [] || cs[|cs| - 1] == ".." then None else Some(cs[|cs| - 1])
  }

  /** `p.strip_prefix(base)`: the components of `p` after those of `base`,
      when `base`'s components (root included) lead `p`'s */
  function StripPrefix(p: string, base: string): (r: Option<seq<string>>)
    ensures r.Some? ==> Components(p) == Components(base) + r.value
  {
    var cp, cb := Components(p), Components(base);
    if IsAbsolute(p) == IsAbsolute(base) && |cb| <= |cp| && cp[..|cb|] == cb
    then Some(cp[|cb|..])
    else None
  }

  lemma {:induction false} SplitOnConcat(a: string, sep: char, b: string)
    ensures SplitOn(a + [sep] + b, sep) == SplitOn(a, sep) + SplitOn(b, sep)
  {
    if a == [] {
      assert a + [sep] + b == [sep] + b;
      assert ([sep] + b)[1..] == b;
    } else {
      assert (a + [sep] + b)[1..] == a[1..] + [sep] + b;
      SplitOnConcat(a[1..], sep, b);
    }
  }

  lemma {:induction false} NamedPiecesConcat(a: seq<string>, b: seq<string>)
    requires forall i :: 0 <= i < |a| ==> '/' !in a[i]
    requires forall i :: 0 <= i < |b| ==> '/' !in b[i]
    ensures NamedPieces(a + b) == NamedPieces(a) + NamedPieces(b)
  {
    if a == [] {
      assert a + b == b;
    } else {
      assert (a + b)[1..] == a[1..] + b;
      NamedPiecesConcat(a[1..], b);
    }
  }

  /** Joining a relative path to a base that does not end in a separator
      concatenates their components. */
  lemma ComponentsOfJoin(base: string, rel: string)
    requires base != [] && base[|base| - 1] != '/' && !IsAbsolute(rel)
    ensures Components(PathJoin(base, rel)) == Components(base) + Components(rel)
    ensures IsAbsolute(PathJoin(base, rel)) == IsAbsolute(base)
  {
    assert PathJoin(base, rel) == base + ['/'] + rel;
    SplitOnConcat(base, '/', rel);
    NamedPiecesConcat(SplitOn(base, '/'), SplitOn(rel, '/'));
  }

  /** A path joined under a base keeps the base as a prefix, and stripping
      the base gives back the joined components. */
  lemma StripPrefixOfJoin(base: string, rel: string)
    requires base != [] && base[|base| - 1] != '/' && !IsAbsolute(rel)
    ensures StripPrefix(PathJoin(base, rel), base) == Some(Components(rel))
  {
    ComponentsOfJoin(base, rel);
    var cb := Components(base);
    assert (cb + Components(rel))[..|cb|] == cb;
    assert (cb + Components(rel))[|cb|..] == Components(rel);
  }

  /** A path whose pieces are all names: no empty piece, no ".", no separator
      at either end */
  predicate Normalized(rel: string)
  {
    forall i :: 0 <= i < |SplitOn(rel, '/')| ==> SplitOn(rel, '/')[i] != [] && SplitOn(rel, '/')[i] != "."
  }

  lemma {:induction false} NamedPiecesAllNamed(pieces: seq<string>)
    requires forall i :: 0 <= i < |pieces| ==> '/' !in pieces[i] && pieces[i] != [] && pieces[i] != "."
    ensures NamedPieces(pieces) == pieces
  {
    if pieces != [] {
      NamedPiecesAllNamed(pieces[1..]);
    }
  }

  lemma {:induction false} JoinSplitOn(s: string)
    ensures Join(SplitOn(s, '/'), "/") == s
  {
    if s != [] {
      JoinSplitOn(s[1..]);
      var rest := SplitOn(s[1..], '/');
      if s[0] == '/' {
        assert SplitOn(s, '/') == [""] + rest;
        assert ([""] + rest)[1..] == rest;
      } else {
        var r := SplitOn(s, '/');
        assert r == [[s[0]] + rest[0]] + rest[1..];
        if |rest| == 1 {
        } else {
          assert r[1..] == rest[1..];
          assert Join(rest, "/") == rest[0] + "/" + Join(rest[1..], "/");
        }
      }
    }
  }

  /** The components of a normalized relative path, joined with separators,
      give back the path. */
  lemma ComponentsOfNormalized(rel: string)
    requires Normalized(rel)
    ensures Components(rel) == SplitOn(rel, '/')
    ensures Join(Components(rel), "/") == rel
  {
    NamedPiecesAllNamed(SplitOn(rel, '/'));
    JoinSplitOn(rel);
  }
}
