/**
 * The filename rewrite of download-urls.js: in the basename of the URL every
 * literal "%20" becomes a space, and the result goes to decodeURIComponent.
 */
module FileName {
  import opened Wrappers

  /** s holds "%20" starting at index i. */
  predicate EncodedSpaceAt(s: string, i: nat) {
    i + 3 <= |s| && s[i] == '%' && s[i + 1] == '2' && s[i + 2] == '0'
  }

  ghost predicate HasEncodedSpace(s: string) {
    exists i: nat :: EncodedSpaceAt(s, i)
  }

  /** A global replacement of "%20" by a space: scan left to right, replace each match and resume after it. */
  function ReplaceEncodedSpaces(s: string): (r: string)
    ensures |r| <= |s|
  {
    if EncodedSpaceAt(s, 0) then " " + ReplaceEncodedSpaces(s[3..])
    else if s == [] then ""
    else [s[0]] + ReplaceEncodedSpaces(s[1..])
  }

  /** One unfolding: the first character of the result, and what follows it. */
  lemma ReplaceHead(t: string)
    requires t != []
    ensures ReplaceEncodedSpaces(t) != []
    ensures EncodedSpaceAt(t, 0) ==> ReplaceEncodedSpaces(t) == " " + ReplaceEncodedSpaces(t[3..])
    ensures !EncodedSpaceAt(t, 0) ==> ReplaceEncodedSpaces(t) == [t[0]] + ReplaceEncodedSpaces(t[1..])
  {
  }

  /** The replacement leaves no "%20" behind. */
  lemma {:induction false} NoEncodedSpaceLeft(s: string)
    ensures !HasEncodedSpace(ReplaceEncodedSpaces(s))
  {
    if s != [] {
      var r := ReplaceEncodedSpaces(s);
      if EncodedSpaceAt(s, 0) {
        var rest := ReplaceEncodedSpaces(s[3..]);
        NoEncodedSpaceLeft(s[3..]);
        forall i: nat ensures !EncodedSpaceAt(r, i) {
          if i > 0 && i + 3 <= |r| {
            assert !EncodedSpaceAt(rest, i - 1);
            assert r[i..i + 3] == rest[i - 1..i + 2];
          }
        }
      } else {
        var rest := ReplaceEncodedSpaces(s[1..]);
        NoEncodedSpaceLeft(s[1..]);
        forall i: nat ensures !EncodedSpaceAt(r, i) {
          if i > 0 && i + 3 <= |r| {
            assert !EncodedSpaceAt(rest, i - 1);
            assert r[i..i + 3] == rest[i - 1..i + 2];
          } else if i == 0 && |r| >= 3 && s[0] == '%' {
            NoEncodedSpaceAtFront(s);
          }
        }
      }
    }
  }

  /** When s starts with '%' but not with "%20", the result does not start with "%20" either. */
  lemma NoEncodedSpaceAtFront(s: string)
    requires s != [] && s[0] == '%' && !EncodedSpaceAt(s, 0)
    ensures !EncodedSpaceAt(ReplaceEncodedSpaces(s), 0)
  {
    var r := ReplaceEncodedSpaces(s);
    ReplaceHead(s);
    var rest := ReplaceEncodedSpaces(s[1..]);
    if |r| >= 3 && r[1] == '2' {
      ReplaceHead(s[1..]);
      assert s[1] == '2';
      assert !EncodedSpaceAt(s[1..], 0);
      var rest2 := ReplaceEncodedSpaces(s[2..]);
      assert rest == [s[1]] + rest2;
      ReplaceHead(s[2..]);
      if EncodedSpaceAt(s[2..], 0) {
        assert r[2] == ' ';
      } else {
        assert r[2] == s[2];
        assert s[2] != '0';
      }
    }
  }

  /** Text without "%20" passes through unchanged. */
  lemma {:induction false} ReplaceWithoutEncodedSpace(s: string)
    requires !HasEncodedSpace(s)
    ensures ReplaceEncodedSpaces(s) == s
  {
    if s != [] {
      assert !EncodedSpaceAt(s, 0);
      assert !HasEncodedSpace(s[1..]) by {
        forall i: nat ensures !EncodedSpaceAt(s[1..], i) {
          assert !EncodedSpaceAt(s, i + 1);
        }
      }
      ReplaceWithoutEncodedSpace(s[1..]);
    }
  }

  /** Every occurrence of "%20", wherever it stands, becomes exactly one space. */
  lemma {:induction false} ReplaceAtOccurrence(a: string, b: string)
    ensures ReplaceEncodedSpaces(a + "%20" + b) == ReplaceEncodedSpaces(a) + " " + ReplaceEncodedSpaces(b)
  {
    var s := a + "%20" + b;
    if a == [] {
      assert s == "%20" + b && s[3..] == b;
    } else if EncodedSpaceAt(a, 0) {
      assert EncodedSpaceAt(s, 0);
      assert s[3..] == a[3..] + "%20" + b;
      ReplaceAtOccurrence(a[3..], b);
    } else {
      assert !EncodedSpaceAt(s, 0);
      assert s[1..] == a[1..] + "%20" + b;
      ReplaceAtOccurrence(a[1..], b);
    }
  }

  /** Applying the replacement twice is the same as applying it once. */
  lemma {:induction false} ReplaceIdempotent(s: string)
    ensures ReplaceEncodedSpaces(ReplaceEncodedSpaces(s)) == ReplaceEncodedSpaces(s)
  {
    NoEncodedSpaceLeft(s);
    ReplaceWithoutEncodedSpace(ReplaceEncodedSpaces(s));
  }

  /** The text decodeURIComponent receives for a URL: its basename with every "%20" made a space. */
  function DecoderInput(url: string, basename: string -> string): (name: string)
    ensures !HasEncodedSpace(name) && |name| <= |basename(url)|
  {
    var base := basename(url);
    NoEncodedSpaceLeft(base);
    ReplaceEncodedSpaces(base)
  }

  /**
   * The local filename of a URL: its basename, with every "%20" made a space,
   * then percent-decoded by decodeComponent, which may fail.
   */
  function DeriveFilename(url: string, basename: string -> string,
                          decodeComponent: string -> Result<string, string>): (name: Result<string, string>)
    ensures !HasEncodedSpace(basename(url)) ==> name == decodeComponent(basename(url))
    ensures forall a, b :: basename(url) == a + "%20" + b ==>
      name == decodeComponent(ReplaceEncodedSpaces(a) + " " + ReplaceEncodedSpaces(b))
  {
    var base := basename(url);
    ReplaceFixesClean(base);
    ReplaceAtEveryOccurrence(base);
    decodeComponent(DecoderInput(url, basename))
  }

  lemma ReplaceFixesClean(s: string)
    ensures !HasEncodedSpace(s) ==> ReplaceEncodedSpaces(s) == s
  {
    if !HasEncodedSpace(s) {
      ReplaceWithoutEncodedSpace(s);
    }
  }

  lemma ReplaceAtEveryOccurrence(s: string)
    ensures forall a, b :: s == a + "%20" + b ==>
      ReplaceEncodedSpaces(s) == ReplaceEncodedSpaces(a) + " " + ReplaceEncodedSpaces(b)
  {
    forall a, b | s == a + "%20" + b
      ensures ReplaceEncodedSpaces(s) == ReplaceEncodedSpaces(a) + " " + ReplaceEncodedSpaces(b)
    {
      ReplaceAtOccurrence(a, b);
    }
  }
}
