/** The Nix source whitelist: which paths of a tree survive when a filter is applied to it
    from the top down, a rejected directory taking everything below it along. */
module Sourcer {
  import opened Text

  /** A path below the source root, as its components; its text is `src/c1/c2/...`. */
  type Components = seq<string>

  function PathText(src: string, p: Components): string
    decreases |p|
  {
    if p == [] then src else PathText(src, p[..|p| - 1]) + "/" + p[|p| - 1]
  }

  function AllowedText(src: string, allowed: string): string {
    src + "/" + allowed
  }

  /** Textual prefix, as `lib.hasPrefix` decides it. */
  predicate HasPrefix(prefix: string, s: string) {
    prefix <= s
  }

  predicate Filter(src: string, allowedPrefixes: seq<string>, path: string, isDirectory: bool) {
    exists allowed | allowed in allowedPrefixes ::
      || HasPrefix(AllowedText(src, allowed), path)
      || (isDirectory && HasPrefix(path, AllowedText(src, allowed)))
  }

  /** What remains of a tree: the root always, anything else if the filter takes it and its
      parent directory remains. Every proper ancestor of a path is a directory. */
  predicate Kept(src: string, allowedPrefixes: seq<string>, p: Components, isDirectory: bool)
    decreases |p|
  {
    p == [] || (
      && Kept(src, allowedPrefixes, p[..|p| - 1], true)
      && Filter(src, allowedPrefixes, PathText(src, p), isDirectory))
  }

  lemma {:induction false} AncestorIsPrefix(src: string, p: Components, n: nat)
    requires n <= |p|
    ensures HasPrefix(PathText(src, p[..n]), PathText(src, p))
    decreases |p|
  {
    if n < |p| {
      AncestorIsPrefix(src, p[..|p| - 1], n);
      assert p[..|p| - 1][..n] == p[..n];
    } else {
      assert p[..n] == p;
    }
  }

  /** Two prefixes of one text are comparable. */
  lemma PrefixesComparable(a: string, b: string, s: string)
    requires HasPrefix(a, s) && HasPrefix(b, s)
    ensures HasPrefix(a, b) || HasPrefix(b, a)
  {
    assert a == s[..|a|] && b == s[..|b|];
  }

  /** A path is kept exactly when the filter takes it: the filter also takes all ancestors of
      what it takes, so no whitelisted path is lost to a rejected directory. */
  lemma {:induction false} KeptIffFiltered(src: string, allowedPrefixes: seq<string>, p: Components, isDirectory: bool)
    requires p != []
    ensures Kept(src, allowedPrefixes, p, isDirectory) <==> Filter(src, allowedPrefixes, PathText(src, p), isDirectory)
    decreases |p|
  {
    var parent := p[..|p| - 1];
    if Filter(src, allowedPrefixes, PathText(src, p), isDirectory) && parent != [] {
      var allowed :| allowed in allowedPrefixes
        && (HasPrefix(AllowedText(src, allowed), PathText(src, p))
            || (isDirectory && HasPrefix(PathText(src, p), AllowedText(src, allowed))));
      AncestorIsPrefix(src, p, |p| - 1);
      if HasPrefix(AllowedText(src, allowed), PathText(src, p)) {
        PrefixesComparable(AllowedText(src, allowed), PathText(src, parent), PathText(src, p));
      } else {
        PrefixesOfPrefix(PathText(src, parent), PathText(src, p), AllowedText(src, allowed));
      }
      assert Filter(src, allowedPrefixes, PathText(src, parent), true);
      KeptIffFiltered(src, allowedPrefixes, parent, true);
    }
  }

  lemma PrefixesOfPrefix(a: string, b: string, c: string)
    requires HasPrefix(a, b) && HasPrefix(b, c)
    ensures HasPrefix(a, c)
  {
  }

  /** A file is kept, with every directory above it, iff its path starts with an allowed one. */
  lemma FilesAreKeptWithTheirAncestors(src: string, allowedPrefixes: seq<string>, p: Components)
    requires p != []
    ensures Kept(src, allowedPrefixes, p, false)
       <==> exists allowed | allowed in allowedPrefixes :: HasPrefix(AllowedText(src, allowed), PathText(src, p))
    ensures Kept(src, allowedPrefixes, p, false) ==> forall n | 0 <= n < |p| :: Kept(src, allowedPrefixes, p[..n], true)
  {
    KeptIffFiltered(src, allowedPrefixes, p, false);
    if Kept(src, allowedPrefixes, p, false) {
      forall n | 0 <= n < |p| ensures Kept(src, allowedPrefixes, p[..n], true) {
        AncestorsKept(src, allowedPrefixes, p, false, n);
      }
    }
  }

  lemma {:induction false} AncestorsKept(src: string, allowedPrefixes: seq<string>,
                                         p: Components, isDirectory: bool, n: nat)
    requires n < |p| && Kept(src, allowedPrefixes, p, isDirectory)
    ensures Kept(src, allowedPrefixes, p[..n], true)
    decreases |p|
  {
    if n < |p| - 1 {
      AncestorsKept(src, allowedPrefixes, p[..|p| - 1], true, n);
      assert p[..|p| - 1][..n] == p[..n];
    }
  }

  lemma {:induction false} JoinSnoc(parts: seq<string>, last: string)
    requires parts != []
    ensures Join(parts + [last], "/") == Join(parts, "/") + "/" + last
    decreases |parts|
  {
    assert (parts + [last])[1..] == parts[1..] + [last];
    if |parts| > 1 {
      JoinSnoc(parts[1..], last);
      var rest := Join(parts[1..], "/");
      assert parts[0] + "/" + (rest + "/" + last) == parts[0] + "/" + rest + "/" + last;
    } else {
      assert parts[1..] + [last] == [last];
    }
  }

  lemma {:induction false} PathSpelledOut(src: string, p: Components)
    requires p != []
    ensures PathText(src, p) == src + "/" + Join(p, "/")
    decreases |p|
  {
    var init, last := p[..|p| - 1], p[|p| - 1];
    assert p == init + [last];
    if init == [] {
      assert p == [last];
    } else {
      PathSpelledOut(src, init);
      JoinSnoc(init, last);
      assert src + "/" + Join(init, "/") + "/" + last == src + "/" + (Join(init, "/") + "/" + last);
    }
  }

  /** In terms of the relative path: a file is kept iff its path below the root starts with an
      allowed prefix, and a directory also if it is on the way to one. */
  lemma KeptByRelativePath(src: string, allowedPrefixes: seq<string>, p: Components, isDirectory: bool)
    requires p != []
    ensures Kept(src, allowedPrefixes, p, isDirectory)
       <==> exists allowed :: (allowed in allowedPrefixes
              && (allowed <= Join(p, "/") || (isDirectory && Join(p, "/") <= allowed)))
  {
    KeptIffFiltered(src, allowedPrefixes, p, isDirectory);
    PathSpelledOut(src, p);
    forall allowed | allowed in allowedPrefixes
      ensures HasPrefix(AllowedText(src, allowed), PathText(src, p)) <==> allowed <= Join(p, "/")
      ensures HasPrefix(PathText(src, p), AllowedText(src, allowed)) <==> Join(p, "/") <= allowed
    {
      SameHead(src + "/", allowed, Join(p, "/"));
      SameHead(src + "/", Join(p, "/"), allowed);
    }
  }

  lemma SameHead(head: string, a: string, b: string)
    ensures head + a <= head + b <==> a <= b
  {
    if head + a <= head + b {
      assert b[..|a|] == (head + b)[|head|..|head| + |a|] == (head + a)[|head|..];
    }
    if a <= b { assert head + a == (head + b)[..|head + a|]; }
  }
}
