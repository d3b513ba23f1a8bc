/**
 * Path template matching: the `matchPath` closure of `findRoute`.
 *
 * A template such as "/posts/:id" and a request path such as "/posts/1" are both
 * cut at every '/', empty pieces are dropped, and the two segment lists are then
 * compared position by position: a template segment that starts with ':' is a
 * placeholder and accepts any request segment, any other segment must be equal.
 */
module Paths {

  /** JavaScript's `s.split('/')`: the pieces between separators, empty pieces included. */
  function Split(s: string): (pieces: seq<string>)
    ensures |pieces| >= 1
    decreases |s|
  {
    if |s| == 0 then [""]
    else
      var rest := Split(s[1..]);
      if s[0] == '/' then [""] + rest
      else [[s[0]] + rest[0]] + rest[1..]
  }

  /** `pieces.join('/')`, the inverse of Split. */
  function Join(pieces: seq<string>): string
    requires |pieces| >= 1
  {
    if |pieces| == 1 then pieces[0] else pieces[0] + "/" + Join(pieces[1..])
  }

  /** `pieces.filter((s) => s.length > 0)` */
  function NonEmpty(pieces: seq<string>): (kept: seq<string>)
    ensures forall p <- kept :: p != "" && p in pieces
  {
    if |pieces| == 0 then []
    else (if pieces[0] != "" then [pieces[0]] else []) + NonEmpty(pieces[1..])
  }

  /** The non-empty segments of a path, in order. */
  function Segments(path: string): seq<string>
  {
    NonEmpty(Split(path))
  }

  /** `segment.startsWith(':')` */
  predicate IsPlaceholder(segment: string)
  {
    |segment| > 0 && segment[0] == ':'
  }

  /** The callback given to `every`: a placeholder, or the same (case-sensitive) text. */
  predicate SegmentMatches(segment: string, target: string)
  {
    IsPlaceholder(segment) || segment == target
  }

  /** `pathSegments.every((segment, i) => ... targetSegments[i])`, scanning from index i. */
  predicate EveryFrom(pathSegments: seq<string>, targetSegments: seq<string>, i: nat)
    requires |pathSegments| == |targetSegments|
    decreases |pathSegments| - i
  {
    i >= |pathSegments| ||
    (SegmentMatches(pathSegments[i], targetSegments[i]) && EveryFrom(pathSegments, targetSegments, i + 1))
  }

  /** `matchPath(routePath, targetPath)` */
  predicate MatchPath(routePath: string, targetPath: string)
  {
    var pathSegments := Segments(routePath);
    var targetSegments := Segments(targetPath);
    |pathSegments| == |targetSegments| && EveryFrom(pathSegments, targetSegments, 0)
  }

  // ---------------------------------------------------------------------------
  // split and join

  /** No piece produced by Split contains the separator. */
  lemma {:induction false} SplitPiecesHaveNoSeparator(s: string)
    ensures forall p <- Split(s) :: '/' !in p
    decreases |s|
  {
    if |s| > 0 {
      var rest := Split(s[1..]);
      SplitPiecesHaveNoSeparator(s[1..]);
      if s[0] != '/' {
        assert '/' !in rest[0];
        assert forall p <- rest[1..] :: p in rest;
        forall p <- Split(s) ensures '/' !in p {
          if p != [s[0]] + rest[0] {
            assert p in rest[1..];
          }
        }
      }
    }
  }

  /** Joining the pieces again gives back the original text. */
  lemma {:induction false} JoinSplit(s: string)
    ensures Join(Split(s)) == s
    decreases |s|
  {
    if |s| > 0 {
      var rest := Split(s[1..]);
      JoinSplit(s[1..]);
      if s[0] == '/' {
        assert Split(s) == [""] + rest;
        assert Split(s)[1..] == rest;
        assert s == [s[0]] + s[1..];
      } else {
        var pieces := Split(s);
        assert pieces[0] == [s[0]] + rest[0] && pieces[1..] == rest[1..];
        if |rest| == 1 {
          assert s == [s[0]] + rest[0];
        } else {
          assert Join(rest) == rest[0] + "/" + Join(rest[1..]);
          assert s == [s[0]] + s[1..];
        }
      }
    }
  }

  /** A piece without separators splits into itself. */
  lemma {:induction false} SplitPlain(s: string)
    requires '/' !in s
    ensures Split(s) == [s]
    decreases |s|
  {
    if |s| > 0 {
      assert s[0] in s;
      assert forall c <- s[1..] :: c in s;
      SplitPlain(s[1..]);
      assert s == [s[0]] + s[1..];
    }
  }

  /** Split of a text with a known first character, in terms of the split of the rest. */
  lemma SplitCons(c: char, t: string)
    ensures Split([c] + t) ==
      if c == '/' then [""] + Split(t) else [[c] + Split(t)[0]] + Split(t)[1..]
  {
    assert ([c] + t)[0] == c && ([c] + t)[1..] == t;
  }

  /** Splitting around a separator concatenates the split of each side. */
  lemma {:induction false} SplitAround(a: string, b: string)
    ensures Split(a + "/" + b) == Split(a) + Split(b)
    decreases |a|
  {
    if |a| == 0 {
      assert a + "/" + b == ['/'] + b;
      SplitCons('/', b);
    } else {
      var c, t := a[0], a[1..];
      assert a == [c] + t;
      assert a + "/" + b == [c] + (t + "/" + b);
      SplitAround(t, b);
      var left, right := Split(t), Split(b);
      if c == '/' {
        calc {
          Split(a + "/" + b);
        == { SplitCons(c, t + "/" + b); }
          [""] + (left + right);
        ==
          ([""] + left) + right;
        == { SplitCons(c, t); }
          Split(a) + right;
        }
      } else {
        calc {
          Split(a + "/" + b);
        == { SplitCons(c, t + "/" + b); }
          [[c] + (left + right)[0]] + (left + right)[1..];
        == { assert (left + right)[0] == left[0]; assert (left + right)[1..] == left[1..] + right; }
          ([[c] + left[0]] + left[1..]) + right;
        == { SplitCons(c, t); }
          Split(a) + right;
        }
      }
    }
  }

  /** Split undoes Join when no piece contains the separator. */
  lemma {:induction false} SplitJoin(pieces: seq<string>)
    requires |pieces| >= 1
    requires forall p <- pieces :: '/' !in p
    ensures Split(Join(pieces)) == pieces
    decreases |pieces|
  {
    SplitPlain(pieces[0]);
    if |pieces| > 1 {
      assert forall p <- pieces[1..] :: p in pieces;
      SplitJoin(pieces[1..]);
      SplitAround(pieces[0], Join(pieces[1..]));
      assert pieces == [pieces[0]] + pieces[1..];
    }
  }

  // ---------------------------------------------------------------------------
  // segments

  lemma {:induction false} NonEmptyConcat(x: seq<string>, y: seq<string>)
    ensures NonEmpty(x + y) == NonEmpty(x) + NonEmpty(y)
    decreases |x|
  {
    if |x| == 0 {
      assert x + y == y;
    } else {
      assert (x + y)[0] == x[0];
      assert (x + y)[1..] == x[1..] + y;
      NonEmptyConcat(x[1..], y);
    }
  }

  /** A separator between two texts only concatenates their segments. */
  lemma SegmentsAround(a: string, b: string)
    ensures Segments(a + "/" + b) == Segments(a) + Segments(b)
  {
    SplitAround(a, b);
    NonEmptyConcat(Split(a), Split(b));
  }

  /** Every segment is non-empty and free of separators. */
  lemma SegmentsAreWords(path: string)
    ensures forall seg <- Segments(path) :: seg != "" && '/' !in seg
  {
    SplitPiecesHaveNoSeparator(path);
  }

  /** A leading slash never changes the segments. */
  lemma LeadingSlashIgnored(path: string)
    ensures Segments("/" + path) == Segments(path)
  {
    SegmentsAround("", path);
    assert "" + "/" + path == "/" + path;
  }

  /** A trailing slash never changes the segments. */
  lemma TrailingSlashIgnored(path: string)
    ensures Segments(path + "/") == Segments(path)
  {
    SegmentsAround(path, "");
    assert path + "/" + "" == path + "/";
  }

  /** A doubled slash counts as a single one. */
  lemma DoubledSlashIgnored(a: string, b: string)
    ensures Segments(a + "//" + b) == Segments(a + "/" + b)
  {
    assert a + "//" + b == a + "/" + ("/" + b);
    SegmentsAround(a, "/" + b);
    SegmentsAround(a, b);
    LeadingSlashIgnored(b);
  }

  /** Separator-free words joined by '/' have exactly those words as segments. */
  lemma SegmentsOfJoin(words: seq<string>)
    requires |words| >= 1
    requires forall w <- words :: w != "" && '/' !in w
    ensures Segments(Join(words)) == words
  {
    SplitJoin(words);
    NonEmptyKeepsWords(words);
  }

  lemma {:induction false} NonEmptyKeepsWords(words: seq<string>)
    requires forall w <- words :: w != ""
    ensures NonEmpty(words) == words
    decreases |words|
  {
    if |words| > 0 {
      assert words[0] in words;
      assert forall w <- words[1..] :: w in words;
      NonEmptyKeepsWords(words[1..]);
      assert words == [words[0]] + words[1..];
    }
  }

  // ---------------------------------------------------------------------------
  // matchPath

  lemma {:induction false} EveryFromIff(ps: seq<string>, ts: seq<string>, i: nat)
    requires |ps| == |ts|
    ensures EveryFrom(ps, ts, i) <==> forall j :: i <= j < |ps| ==> SegmentMatches(ps[j], ts[j])
    decreases |ps| - i
  {
    if i < |ps| {
      EveryFromIff(ps, ts, i + 1);
    }
  }

  /**
   * matchPath holds exactly when both paths have the same number of segments and
   * each template segment is a placeholder or equals the request segment at its index.
   */
  lemma MatchPathIff(routePath: string, targetPath: string)
    ensures MatchPath(routePath, targetPath) <==>
      var ps, ts := Segments(routePath), Segments(targetPath);
      |ps| == |ts| && forall i :: 0 <= i < |ps| ==> IsPlaceholder(ps[i]) || ps[i] == ts[i]
  {
    var ps, ts := Segments(routePath), Segments(targetPath);
    if |ps| == |ts| {
      EveryFromIff(ps, ts, 0);
    }
  }

  /** Every path matches itself as a template. */
  lemma MatchPathReflexive(path: string)
    ensures MatchPath(path, path)
  {
    MatchPathIff(path, path);
  }

  /** Leading, trailing and doubled slashes on either side never change the answer. */
  lemma MatchPathIgnoresSlashes(routePath: string, a: string, b: string)
    ensures MatchPath(routePath, "/" + a) == MatchPath(routePath, a)
    ensures MatchPath(routePath, a + "/") == MatchPath(routePath, a)
    ensures MatchPath(routePath, a + "//" + b) == MatchPath(routePath, a + "/" + b)
    ensures MatchPath("/" + a, b) == MatchPath(a, b)
    ensures MatchPath(a + "/", b) == MatchPath(a, b)
    ensures MatchPath(a + "//" + b, routePath) == MatchPath(a + "/" + b, routePath)
  {
    LeadingSlashIgnored(a);
    TrailingSlashIgnored(a);
    DoubledSlashIgnored(a, b);
  }

  /** Template "/test" accepts "test", what is left of "/test" once a base endpoint "/" is cut off. */
  lemma TemplateMatchesStrippedPath()
    ensures MatchPath("/test", "test")
  {
    MatchPathIgnoresSlashes("/test", "test", "");
    MatchPathReflexive("test");
  }

  /** A one-segment placeholder accepts any one-segment path, but not the empty path. */
  lemma PlaceholderAcceptsOneSegment(name: string, value: string)
    requires '/' !in name && '/' !in value
    ensures MatchPath("/:" + name, "/" + value) <==> value != ""
  {
    var word := ":" + name;
    assert '/' !in word by {
      assert forall i :: 1 <= i < |word| ==> word[i] == name[i - 1];
    }
    assert "/:" + name == "/" + word;
    LeadingSlashIgnored(word);
    LeadingSlashIgnored(value);
    SegmentsOfJoin([word]);
    if value != "" {
      SegmentsOfJoin([value]);
    } else {
      assert Segments(value) == [];
    }
    MatchPathIff("/:" + name, "/" + value);
  }

  /** Literal segments compare case-sensitively. */
  lemma LiteralIsCaseSensitive()
    ensures !MatchPath("/Test", "/test")
  {
    LeadingSlashIgnored("Test");
    LeadingSlashIgnored("test");
    SegmentsOfJoin(["Test"]);
    SegmentsOfJoin(["test"]);
  }
}
