/** Same-document JSON Pointer references (`"#/a/b~1c"`), resolved as the schema
    walker does: unescaped per section 4 of RFC 6901, one segment at a time. */
module Pointer {
  import opened Json

  /** `s.split(sep)`: the pieces between separators, empty pieces kept. */
  function Split(s: string, sep: char): (r: seq<string>)
    ensures |r| >= 1
    ensures forall i :: 0 <= i < |r| ==> sep !in r[i]
  {
    if s == [] then [[]]
    else if s[0] == sep then [[]] + Split(s[1..], sep)
    else
      var rest := Split(s[1..], sep);
      [[s[0]] + rest[0]] + rest[1..]
  }

  /** `sep.join(parts)`: the inverse of `Split`. */
  function Join(parts: seq<string>, sep: char): string
    requires |parts| >= 1
  {
    if |parts| == 1 then parts[0] else parts[0] + [sep] + Join(parts[1..], sep)
  }

  lemma {:induction false} JoinSplit(s: string, sep: char)
    ensures Join(Split(s, sep), sep) == s
  {
    if s != [] {
      JoinSplit(s[1..], sep);
      var rest := Split(s[1..], sep);
      if s[0] != sep {
        var r := [[s[0]] + rest[0]] + rest[1..];
        if |rest| == 1 {
          assert Join(r, sep) == [s[0]] + rest[0];
        } else {
          assert r[1..] == rest[1..];
          assert Join(r, sep) == [s[0]] + rest[0] + [sep] + Join(rest[1..], sep);
        }
      } else {
        assert ([[]] + rest)[1..] == rest;
      }
    }
  }

  lemma {:induction false} SplitJoin(parts: seq<string>, sep: char)
    requires |parts| >= 1 && forall i :: 0 <= i < |parts| ==> sep !in parts[i]
    ensures Split(Join(parts, sep), sep) == parts
    decreases |parts|, |parts[0]|
  {
    var p := parts[0];
    if p == [] {
      if |parts| > 1 {
        SplitJoin(parts[1..], sep);
        var j := Join(parts, sep);
        assert j == [sep] + Join(parts[1..], sep);
        assert j[1..] == Join(parts[1..], sep);
        assert [[]] + parts[1..] == parts;
      }
    } else {
      var tail := [p[1..]] + parts[1..];
      assert sep !in tail[0] by { assert forall c :: c in p[1..] ==> c in p; }
      SplitJoin(tail, sep);
      var j := Join(parts, sep);
      assert j == [p[0]] + Join(tail, sep) by {
        if |parts| == 1 {
          assert j == p;
        } else {
          assert tail[1..] == parts[1..];
        }
      }
      assert j[1..] == Join(tail, sep);
      assert p == [p[0]] + p[1..];
      assert [[p[0]] + tail[0]] + tail[1..] == parts;
    }
  }

  /** `s.replace(pat, rep)`: every non-overlapping occurrence of `pat`, scanning left to right. */
  function Replace(s: string, pat: string, rep: string): string
    requires |pat| > 0
    decreases |s|
  {
    if |s| >= |pat| && s[..|pat|] == pat then rep + Replace(s[|pat|..], pat, rep)
    else if s == [] then []
    else [s[0]] + Replace(s[1..], pat, rep)
  }

  /** A reference token decoded per section 4 of RFC 6901: `~1` to `/` first, then `~0` to `~`. */
  function Unescape(token: string): string
  {
    Replace(Replace(token, "~1", "/"), "~0", "~")
  }

  /** The encoding of section 3 of RFC 6901: `~` as `~0`, `/` as `~1`. */
  function Escape(s: string): (r: string)
    ensures '/' !in r
  {
    if s == [] then []
    else (if s[0] == '~' then "~0" else if s[0] == '/' then "~1" else [s[0]]) + Escape(s[1..])
  }

  /** `s` with only its tildes escaped: what the first pass of `Unescape` leaves of `Escape(s)`. */
  function EscapeTildes(s: string): string
  {
    if s == [] then []
    else (if s[0] == '~' then "~0" else [s[0]]) + EscapeTildes(s[1..])
  }

  /** A head character that does not start `pat` is copied through by `Replace`. */
  lemma ReplaceKeep(c: char, e: string, pat: string, rep: string)
    requires |pat| >= 2 && c != pat[0]
    ensures Replace([c] + e, pat, rep) == [c] + Replace(e, pat, rep)
  {
    var t := [c] + e;
    assert t[1..] == e;
    assert !(|t| >= |pat| && t[..|pat|] == pat) by { if |t| >= |pat| { assert t[0] == c; } }
  }

  /** One character of `Escape` through the first pass of `Unescape`. */
  lemma FirstPassStep(c: char, e: string)
    ensures Replace((if c == '~' then "~0" else if c == '/' then "~1" else [c]) + e, "~1", "/")
         == (if c == '~' then "~0" else [c]) + Replace(e, "~1", "/")
  {
    if c == '~' {
      var t := "~0" + e;
      assert t[..2] != "~1" by { assert t[1] == '0'; }
      assert t == ['~'] + ("0" + e);
      ReplaceKeep('0', e, "~1", "/");
    } else if c == '/' {
      var t := "~1" + e;
      assert t[..2] == "~1" && t[2..] == e;
    } else {
      ReplaceKeep(c, e, "~1", "/");
    }
  }

  lemma {:induction false} FirstPass(s: string)
    ensures Replace(Escape(s), "~1", "/") == EscapeTildes(s)
  {
    if s != [] {
      FirstPass(s[1..]);
      FirstPassStep(s[0], Escape(s[1..]));
    }
  }

  lemma {:induction false} SecondPass(s: string)
    ensures Replace(EscapeTildes(s), "~0", "~") == s
  {
    if s != [] {
      SecondPass(s[1..]);
      var e := EscapeTildes(s[1..]);
      if s[0] == '~' {
        var t := "~0" + e;
        assert t[..2] == "~0" && t[2..] == e;
      } else {
        var t := [s[0]] + e;
        assert t[1..] == e;
        assert !(|t| >= 2 && t[..2] == "~0") by { if |t| >= 2 { assert t[0] == s[0]; } }
      }
      assert s == [s[0]] + s[1..];
    }
  }

  /** Decoding inverts encoding, so every key, including ones holding `/` or `~`, can be named. */
  lemma UnescapeEscape(s: string)
    ensures Unescape(Escape(s)) == s
  {
    FirstPass(s);
    SecondPass(s);
  }

  /** The order of the two passes matters: `~01` names the key `~1`, not `/`. */
  lemma UnescapeOrder()
    ensures Unescape("~01") == "~1"
    ensures Replace(Replace("~01", "~0", "~"), "~1", "/") == "/"
  {
    var s := "~01";
    assert s[1] == '0' && s[..2] != "~1";
    assert s[1..] == "01" && "01"[0] == '0' && "01"[1..] == "1" && "1"[1..] == [];
    assert Replace(s, "~1", "/") == s;
    assert s[..2] == "~0" && s[2..] == "1";
    assert Replace("1", "~0", "~") == "1" by { assert "1"[1..] == []; }
    var t := Replace(s, "~0", "~");
    assert t == "~1";
    assert t[..2] == "~1" && t[2..] == [];
  }

  /** Outcome of resolving a `$ref`: not a same-document pointer (`None` in the source),
      the position it designates, or a missing segment (a `KeyError`/`TypeError`, fatal). */
  datatype Resolution = Foreign | Resolved(path: Path) | Broken

  /** One descent step from the value at `at` by the raw segment `seg`. Only an object
      can be indexed by a string; an array, a string or a scalar cannot. */
  function Step(root: Json, at: Path, seg: string): Option<nat>
  {
    match At(root, at)
    case Some(Obj(ms)) => Find(ms, Unescape(seg))
    case _ => None
  }

  /** The loop of `resolve_ref`, continuing from position `at` with the segments `segs`. */
  function Descend(root: Json, at: Path, segs: seq<string>): (r: Resolution)
    decreases |segs|
  {
    if segs == [] then Resolved(at)
    else match Step(root, at, segs[0])
      case Some(j) => Descend(root, at + [j], segs[1..])
      case None => Broken
  }

  predicate IsLocal(ref: string)
  {
    |ref| >= 2 && ref[..2] == "#/"
  }

  /** The raw segments of a same-document pointer: what follows `#/`, split at `/`. */
  function Segments(ref: string): seq<string>
    requires IsLocal(ref)
  {
    Split(ref[2..], '/')
  }

  /** `resolve_ref(ref, schema)`. */
  function Resolve(ref: string, root: Json): (r: Resolution)
    ensures r.Foreign? <==> !IsLocal(ref)
  {
    if !IsLocal(ref) then Foreign
    else
      DescendNeverForeign(root, [], Segments(ref));
      Descend(root, [], Segments(ref))
  }

  lemma {:induction false} DescendNeverForeign(root: Json, at: Path, segs: seq<string>)
    ensures !Descend(root, at, segs).Foreign?
    decreases |segs|
  {
    if segs != [] && Step(root, at, segs[0]).Some? {
      DescendNeverForeign(root, at + [Step(root, at, segs[0]).value], segs[1..]);
    }
  }

  /** `p` is the sequence of positions taken from `at` by following `segs` one by one. */
  ghost predicate FollowsFrom(root: Json, at: Path, p: Path, segs: seq<string>)
  {
    && |p| == |segs|
    && forall i :: 0 <= i < |p| ==> Step(root, at + p[..i], segs[i]) == Some(p[i])
  }

  lemma FollowsTail(root: Json, at: Path, p: Path, segs: seq<string>)
    requires FollowsFrom(root, at, p, segs) && segs != []
    ensures Step(root, at, segs[0]) == Some(p[0])
    ensures FollowsFrom(root, at + [p[0]], p[1..], segs[1..])
  {
    assert at + p[..0] == at;
    forall i | 0 <= i < |p| - 1
      ensures Step(root, at + [p[0]] + p[1..][..i], segs[1..][i]) == Some(p[1..][i])
    {
      assert at + [p[0]] + p[1..][..i] == at + p[..i + 1];
    }
  }

  lemma FollowsCons(root: Json, at: Path, j: nat, p: Path, segs: seq<string>)
    requires segs != [] && Step(root, at, segs[0]) == Some(j)
    requires FollowsFrom(root, at + [j], p, segs[1..])
    ensures FollowsFrom(root, at, [j] + p, segs)
  {
    var q := [j] + p;
    forall i | 0 <= i < |q|
      ensures Step(root, at + q[..i], segs[i]) == Some(q[i])
    {
      if i == 0 {
        assert at + q[..0] == at;
      } else {
        assert at + q[..i] == at + [j] + p[..i - 1];
        assert segs[1..][i - 1] == segs[i];
      }
    }
  }

  lemma {:induction false} FollowedIsDescended(root: Json, at: Path, p: Path, segs: seq<string>)
    requires FollowsFrom(root, at, p, segs)
    ensures Descend(root, at, segs) == Resolved(at + p)
    decreases |segs|
  {
    if segs != [] {
      FollowsTail(root, at, p, segs);
      FollowedIsDescended(root, at + [p[0]], p[1..], segs[1..]);
      PathCons(at, p);
    }
  }

  lemma PathCons(at: Path, p: Path)
    requires p != []
    ensures at + [p[0]] + p[1..] == at + p
  {
    assert p == [p[0]] + p[1..];
  }

  lemma PathAfter(at: Path, j: nat, q: Path)
    requires |q| > |at| && q[..|at| + 1] == at + [j]
    ensures q[..|at|] == at && q[|at|..] == [j] + q[|at| + 1..]
  {
    assert q[..|at|] == q[..|at| + 1][..|at|];
  }

  lemma {:induction false} DescendedIsFollowed(root: Json, at: Path, segs: seq<string>, q: Path)
    requires Descend(root, at, segs) == Resolved(q)
    ensures |q| == |at| + |segs| && q[..|at|] == at && FollowsFrom(root, at, q[|at|..], segs)
    decreases |segs|
  {
    if segs == [] {
      assert q == at;
    } else {
      var j := Step(root, at, segs[0]).value;
      DescendedIsFollowed(root, at + [j], segs[1..], q);
      PathAfter(at, j, q);
      FollowsCons(root, at, j, q[|at| + 1..], segs);
    }
  }

  /** What `resolve_ref` returns: `None` exactly for a reference that does not start with
      `#/`; otherwise the unique position reached by descending the unescaped segments in
      order, or a failure when some segment is missing or meets a non-object. */
  lemma ResolveSpec(ref: string, root: Json, q: Path)
    ensures Resolve(ref, root).Foreign? <==> !IsLocal(ref)
    ensures IsLocal(ref) ==> (Resolve(ref, root) == Resolved(q) <==> FollowsFrom(root, [], q, Segments(ref)))
    ensures IsLocal(ref) ==> (Resolve(ref, root).Broken? <==> forall p :: !FollowsFrom(root, [], p, Segments(ref)))
  {
    if IsLocal(ref) {
      var segs := Segments(ref);
      if Resolve(ref, root) == Resolved(q) {
        DescendedIsFollowed(root, [], segs, q);
        assert q[0..] == q;
      }
      if FollowsFrom(root, [], q, segs) {
        FollowedIsDescended(root, [], q, segs);
        assert [] + q == q;
      }
      if Resolve(ref, root).Broken? {
        forall p | FollowsFrom(root, [], p, segs) ensures false {
          FollowedIsDescended(root, [], p, segs);
        }
      } else {
        var q' := Resolve(ref, root).path;
        DescendedIsFollowed(root, [], segs, q');
        assert q'[0..] == q';
      }
    }
  }

  /** `resolve_ref` as the source runs it: a loop that keeps the current target (and,
      standing in for object identity, its position) and descends one segment per turn. */
  method ResolveRef(ref: string, schema: Json) returns (r: Resolution)
    ensures r == Resolve(ref, schema)
    ensures r.Resolved? ==> At(schema, r.path).Some?
  {
    if !IsLocal(ref) {
      return Foreign;
    }
    var parts := Split(ref[2..], '/');
    var target := schema;
    var path: Path := [];
    var i := 0;
    while i < |parts|
      invariant 0 <= i <= |parts|
      invariant At(schema, path) == Some(target)
      invariant Descend(schema, path, parts[i..]) == Descend(schema, [], parts)
    {
      var clean := Unescape(parts[i]);
      assert parts[i..][0] == parts[i] && parts[i..][1..] == parts[i + 1..];
      match target {
        case Obj(ms) =>
          var j := Find(ms, clean);
          if j.None? {
            return Broken;
          }
          AtAppend(schema, path, j.value);
          target := ms[j.value].value;
          path := path + [j.value];
        case _ =>
          return Broken;
      }
      i := i + 1;
    }
    r := Resolved(path);
  }
}
