/** Text helpers used by the renderer: `StringUtils.replace` of Apache Commons Lang and a
    separator join, with the facts the renderer's lemmas rely on. */
module Strings {

  /** `StringUtils.replace(text, from, to)`: every occurrence of `from`, found scanning left to
      right without overlap, becomes `to`; an empty text or an empty `from` leaves the text as it
      is, and a `to` as long as `from` keeps the length. */
  function Replace(s: string, from: string, to: string): (r: string)
    ensures |from| == 0 || |s| == 0 ==> r == s
    ensures |to| == |from| ==> |r| == |s|
    decreases |s|
  {
    if |from| == 0 || |s| == 0 then s
    else if from <= s then to + Replace(s[|from|..], from, to)
    else [s[0]] + Replace(s[1..], from, to)
  }

  /** Replacing one character `c`: the first character of the text is handled on its own. */
  lemma ReplaceCharCons(x: char, s: string, c: char, to: string)
    ensures Replace([x] + s, [c], to) == (if x == c then to else [x]) + Replace(s, [c], to)
  {
    var t := [x] + s;
    assert t[1..] == s;
    assert t[|[c]|..] == s;
    if x == c {
      assert t[..1] == [c];
    } else {
      assert t[0] != [c][0];
    }
  }

  /** Replacing one character distributes over concatenation. */
  lemma {:induction false} ReplaceCharAppend(a: string, b: string, c: char, to: string)
    ensures Replace(a + b, [c], to) == Replace(a, [c], to) + Replace(b, [c], to)
    decreases |a|
  {
    if a != [] {
      calc {
        Replace(a + b, [c], to);
        { assert a + b == [a[0]] + (a[1..] + b); ReplaceCharCons(a[0], a[1..] + b, c, to); }
        (if a[0] == c then to else [a[0]]) + Replace(a[1..] + b, [c], to);
        { ReplaceCharAppend(a[1..], b, c, to); }
        (if a[0] == c then to else [a[0]]) + Replace(a[1..], [c], to) + Replace(b, [c], to);
        { assert a == [a[0]] + a[1..]; ReplaceCharCons(a[0], a[1..], c, to); }
        Replace(a, [c], to) + Replace(b, [c], to);
      }
    } else {
      assert a + b == b;
    }
  }

  /** A text without `c` is left as it is. */
  lemma {:induction false} ReplaceCharAbsent(s: string, c: char, to: string)
    requires c !in s
    ensures Replace(s, [c], to) == s
    decreases |s|
  {
    if s != [] {
      assert s == [s[0]] + s[1..];
      ReplaceCharCons(s[0], s[1..], c, to);
      ReplaceCharAbsent(s[1..], c, to);
    }
  }

  /** Turning every `c` into `c` followed by `u` is undone by turning every `c` followed by `u`
      back into `c`: no information is lost, whatever `s` and `u` hold. */
  lemma {:induction false} ReplaceRoundTrip(s: string, c: char, u: string)
    ensures Replace(Replace(s, [c], [c] + u), [c] + u, [c]) == s
    decreases |s|
  {
    if s != [] {
      var rest := Replace(s[1..], [c], [c] + u);
      assert s == [s[0]] + s[1..];
      ReplaceCharCons(s[0], s[1..], c, [c] + u);
      ReplaceRoundTrip(s[1..], c, u);
      if s[0] == c {
        var t := ([c] + u) + rest;
        assert [c] + u <= t;
        assert t[|[c] + u|..] == rest;
      } else {
        var t := [s[0]] + rest;
        assert t[0] != ([c] + u)[0];
        assert t[1..] == rest;
      }
    }
  }

  /** After every `c` has become `c` followed by `d` (with `d` different from `c`), each `c` of the
      result is followed by a `d`. */
  lemma {:induction false} ReplaceCharFollowed(s: string, c: char, d: char)
    requires c != d
    ensures forall i :: 0 <= i < |Replace(s, [c], [c, d])| && Replace(s, [c], [c, d])[i] == c ==>
              i + 1 < |Replace(s, [c], [c, d])| && Replace(s, [c], [c, d])[i + 1] == d
    decreases |s|
  {
    if s != [] {
      assert s == [s[0]] + s[1..];
      ReplaceCharCons(s[0], s[1..], c, [c, d]);
      ReplaceCharFollowed(s[1..], c, d);
    }
  }

  /** The pieces of `xs` with `sep` between each two neighbours (`String.join`-like). */
  function Join(xs: seq<string>, sep: string): string
    decreases |xs|
  {
    if |xs| == 0 then ""
    else if |xs| == 1 then xs[0]
    else Join(xs[..|xs| - 1], sep) + sep + xs[|xs| - 1]
  }

  /** Appending one more piece to a join adds the separator only when there was a piece before. */
  lemma JoinSnoc(xs: seq<string>, y: string, sep: string)
    ensures Join(xs + [y], sep) == if xs == [] then y else Join(xs, sep) + sep + y
  {
    assert (xs + [y])[..|xs|] == xs;
  }

  /** A join begins with its first piece. */
  lemma {:induction false} JoinStartsWithFirst(xs: seq<string>, sep: string)
    requires |xs| > 0
    ensures xs[0] <= Join(xs, sep)
    decreases |xs|
  {
    if |xs| > 1 {
      var init := xs[..|xs| - 1];
      JoinStartsWithFirst(init, sep);
      assert init[0] == xs[0];
    }
  }

  /** When no piece is empty, appending a piece adds the separator exactly when the join so
      far is not empty. */
  lemma JoinSnocNonEmpty(xs: seq<string>, y: string, sep: string)
    requires forall i :: 0 <= i < |xs| ==> |xs[i]| > 0
    ensures Join(xs + [y], sep) ==
            (if |Join(xs, sep)| > 0 then Join(xs, sep) + sep else Join(xs, sep)) + y
  {
    JoinSnoc(xs, y, sep);
    if xs != [] {
      JoinStartsWithFirst(xs, sep);
    }
  }

  /** Joining two non-empty lists of pieces is joining each and putting one separator between. */
  lemma {:induction false} JoinAppend(xs: seq<string>, ys: seq<string>, sep: string)
    requires |xs| > 0 && |ys| > 0
    ensures Join(xs + ys, sep) == Join(xs, sep) + sep + Join(ys, sep)
    decreases |ys|
  {
    var init := ys[..|ys| - 1];
    var last := ys[|ys| - 1];
    assert xs + ys == (xs + init) + [last];
    JoinSnoc(xs + init, last, sep);
    if init == [] {
      assert xs + init == xs;
    } else {
      JoinAppend(xs, init, sep);
      JoinSnoc(init, last, sep);
      assert init + [last] == ys;
    }
  }
}
