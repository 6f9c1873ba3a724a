/**
 * The part of POSIX `pathlib.Path` that the local entry point uses:
 * the final component, its suffix and the path's string form.
 */
module PathLib {

  const Sep: char := '/'

  /** `s.split(sep)`: the pieces between separators, at least one. */
  function Split(s: string, sep: char): (r: seq<string>)
    ensures |r| >= 1
    ensures forall k :: 0 <= k < |r| ==> sep !in r[k]
  {
    if |s| == 0 then [""]
    else
      var rest := Split(s[1..], sep);
      if s[0] == sep then [""] + rest
      else [[s[0]] + rest[0]] + rest[1..]
  }

  /** `sep.join(parts)` */
  function Join(parts: seq<string>, sep: char): string
    requires |parts| >= 1
  {
    if |parts| == 1 then parts[0] else parts[0] + [sep] + Join(parts[1..], sep)
  }

  /** Splitting and joining on the same separator gives the text back. */
  lemma {:induction false} JoinSplit(s: string, sep: char)
    ensures Join(Split(s, sep), sep) == s
  {
    if |s| > 0 {
      var rest := Split(s[1..], sep);
      JoinSplit(s[1..], sep);
      if s[0] == sep {
        assert ([""] + rest)[1..] == rest;
        assert s == [sep] + s[1..];
      } else if |rest| == 1 {
        assert s == [s[0]] + s[1..];
      } else {
        var r := [[s[0]] + rest[0]] + rest[1..];
        assert r[1..] == rest[1..];
        assert Join(rest, sep) == rest[0] + [sep] + Join(rest[1..], sep);
        assert s == [s[0]] + s[1..];
      }
    }
  }

  /** The components pathlib keeps: empty pieces and "." are dropped. */
  function KeepParts(xs: seq<string>): (r: seq<string>)
    ensures forall k :: 0 <= k < |r| ==> r[k] != "" && r[k] != "."
    ensures forall x :: x in r <==> x in xs && x != "" && x != "."
  {
    if |xs| == 0 then []
    else
      var rest := KeepParts(xs[1..]);
      assert xs == [xs[0]] + xs[1..];
      if xs[0] == "" || xs[0] == "." then rest else [xs[0]] + rest
  }

  /**
   * The anchor of a POSIX path: "//" for exactly two leading slashes,
   * "/" for one or three or more, "" for a relative path.
   */
  function Root(p: string): (r: string)
    ensures r in {"", "/", "//"}
    ensures r == "" <==> !StartsWithSep(p)
  {
    if |p| == 0 || p[0] != Sep then ""
    else if |p| == 1 || p[1] != Sep || (|p| > 2 && p[2] == Sep) then "/"
    else "//"
  }

  predicate StartsWithSep(p: string) {
    |p| > 0 && p[0] == Sep
  }

  /**
   * The components after the anchor. The slashes of the anchor only
   * produce empty pieces, which are dropped, so the whole text is split.
   */
  function Tail(p: string): (r: seq<string>)
    ensures forall k :: 0 <= k < |r| ==> r[k] != "" && r[k] != "." && Sep !in r[k]
  {
    var pieces := Split(p, Sep);
    var r := KeepParts(pieces);
    assert forall k :: 0 <= k < |r| ==> r[k] in pieces;
    r
  }

  /** `Path(p).name`: the last kept component, or "". */
  function Name(p: string): (r: string)
    ensures Sep !in r && r != "."
    ensures r == "" <==> |Tail(p)| == 0
  {
    var t := Tail(p);
    if |t| == 0 then "" else t[|t| - 1]
  }

  /** `str(Path(p))`: the anchor and the kept components joined by "/", or "." when both are empty. */
  function PathStr(p: string): (r: string)
    ensures r != ""
    ensures Tail(p) == [] ==> r == (if Root(p) == "" then "." else Root(p))
  {
    var t := Tail(p);
    var s := Root(p) + (if |t| == 0 then "" else Join(t, Sep));
    if s == "" then "." else s
  }

  /** `s.rfind(c)`: the last index of `c`, or -1. */
  function RFind(s: string, c: char): (r: int)
    ensures -1 <= r < |s|
    ensures r == -1 <==> c !in s
    ensures r >= 0 ==> s[r] == c && forall k :: r < k < |s| ==> s[k] != c
  {
    if |s| == 0 then -1
    else if s[|s| - 1] == c then |s| - 1
    else
      assert s == s[..|s| - 1] + [s[|s| - 1]];
      RFind(s[..|s| - 1], c)
  }

  /**
   * `Path(p).suffix`: the final component from its last dot, provided
   * that dot is neither the first nor the last character of the name.
   */
  function Suffix(p: string): (r: string)
    ensures r != "" ==> |r| >= 2 && r[0] == '.' && '.' !in r[1..] && Sep !in r
    ensures r != "" ==> |r| < |Name(p)| && Name(p)[|Name(p)| - |r|..] == r
  {
    var name := Name(p);
    var i := RFind(name, '.');
    if 0 < i < |name| - 1 then
      assert name[i..][1..] == name[i + 1..];
      name[i..]
    else
      ""
  }

  /**
   * A suffix exists exactly when the name has a dot strictly inside it
   * and does not end with a dot.
   */
  lemma SuffixExists(p: string)
    ensures Suffix(p) != "" <==>
              var name := Name(p);
              |name| >= 2 && name[|name| - 1] != '.' && exists k :: 0 < k < |name| - 1 && name[k] == '.'
  {
  }

  /** A text without separators is a single piece. */
  lemma {:induction false} SplitNoSep(s: string, sep: char)
    requires sep !in s
    ensures Split(s, sep) == [s]
  {
    if |s| > 0 {
      SplitNoSep(s[1..], sep);
      assert s == [s[0]] + s[1..];
    }
  }

  /** A trailing separator adds one empty piece. */
  lemma {:induction false} SplitAppendSep(s: string, sep: char)
    ensures Split(s + [sep], sep) == Split(s, sep) + [""]
  {
    if |s| == 0 {
      assert Split([sep], sep) == [""] + Split([], sep);
    } else {
      assert (s + [sep])[1..] == s[1..] + [sep];
      SplitAppendSep(s[1..], sep);
    }
  }

  lemma {:induction false} KeepPartsAppendEmpty(xs: seq<string>)
    ensures KeepParts(xs + [""]) == KeepParts(xs)
  {
    if |xs| == 0 {
      assert KeepParts([""]) == KeepParts([]);
    } else {
      assert (xs + [""])[1..] == xs[1..] + [""];
      KeepPartsAppendEmpty(xs[1..]);
    }
  }

  /** `Path("a/b.png/")` is the same path as `Path("a/b.png")`. */
  lemma TrailingSepIgnored(p: string)
    requires p != [] && p[|p| - 1] != Sep
    ensures Tail(p + [Sep]) == Tail(p)
    ensures Name(p + [Sep]) == Name(p)
    ensures PathStr(p + [Sep]) == PathStr(p)
  {
    SplitAppendSep(p, Sep);
    KeepPartsAppendEmpty(Split(p, Sep));
    assert Root(p + [Sep]) == Root(p) by {
      assert (p + [Sep])[0] == p[0];
      if |p| >= 2 {
        assert (p + [Sep])[1] == p[1];
      }
      if |p| >= 3 {
        assert (p + [Sep])[2] == p[2];
      }
    }
  }

  /** A relative name without separators, other than "" and ".", is its own name and string form. */
  lemma PlainName(p: string)
    requires Sep !in p && p != "" && p != "."
    ensures Tail(p) == [p]
    ensures Name(p) == p
    ensures PathStr(p) == p
  {
    SplitNoSep(p, Sep);
    assert [p][1..] == [];
    assert KeepParts([p]) == [p] + KeepParts([]);
  }

  /** A final component `stem.ext` with a non-empty stem and a dot-free extension has suffix ".ext". */
  lemma SuffixOfName(p: string, stem: string, ext: string)
    requires Name(p) == stem + "." + ext
    requires stem != "" && ext != "" && '.' !in ext
    ensures Suffix(p) == "." + ext
  {
    var name := Name(p);
    var i := RFind(name, '.');
    assert name[|stem|] == '.';
    assert forall k :: |stem| < k < |name| ==> name[k] == ext[k - |stem| - 1];
    assert i == |stem|;
    assert name[i..] == "." + ext;
  }

  /** A name whose only dot leads it (a hidden file such as ".png") has no suffix. */
  lemma HiddenNameHasNoSuffix(p: string, rest: string)
    requires Name(p) == "." + rest
    requires '.' !in rest
    ensures Suffix(p) == ""
  {
    var name := Name(p);
    assert forall k :: 0 < k < |name| ==> name[k] == rest[k - 1];
  }
}
