/** The two wrappers the model uses: an optional value (a row that may be
    absent, a nullable field) and the outcome of an operation that can fail. */
module Common {

  datatype Option<+T> = None | Some(value: T)

  datatype Result<+T, +E> = Success(value: T) | Failure(error: E)
}

/** The two pieces of `java.lang.String` behaviour the service relies on. */
module JavaStrings {
  import opened Common

  /** The text `+` appends for a possibly-null String: `null` prints as "null". */
  function JavaString(s: Option<string>): string
  {
    match s
    case None => "null"
    case Some(v) => v
  }

  /** The characters `trim` strips: every code point up to U+0020. */
  predicate IsTrimmable(c: char)
  {
    c <= ' '
  }

  /** A string made only of trimmable characters (the empty string included). */
  ghost predicate IsBlank(s: string)
  {
    forall k :: 0 <= k < |s| ==> IsTrimmable(s[k])
  }

  function TrimLeading(s: string): string
  {
    if s != [] && IsTrimmable(s[0]) then TrimLeading(s[1..]) else s
  }

  function TrimTrailing(s: string): string
  {
    if s != [] && IsTrimmable(s[|s| - 1]) then TrimTrailing(s[..|s| - 1]) else s
  }

  /** `String.trim`: strips trimmable characters from both ends. */
  function Trim(s: string): string
  {
    TrimTrailing(TrimLeading(s))
  }

  lemma {:induction false} TrimLeadingShape(s: string)
    ensures TrimLeading(s) == [] <==> IsBlank(s)
    ensures TrimLeading(s) != [] ==> !IsTrimmable(TrimLeading(s)[0])
  {
    if s != [] && IsTrimmable(s[0]) {
      TrimLeadingShape(s[1..]);
      assert IsBlank(s) <==> IsBlank(s[1..]) by {
        if IsBlank(s[1..]) {
          forall k | 0 <= k < |s| ensures IsTrimmable(s[k]) {
            if k > 0 { assert s[k] == s[1..][k - 1]; }
          }
        }
      }
    }
  }

  lemma {:induction false} TrimTrailingEmpty(s: string)
    ensures TrimTrailing(s) == [] <==> IsBlank(s)
  {
    if s != [] && IsTrimmable(s[|s| - 1]) {
      var p := s[..|s| - 1];
      TrimTrailingEmpty(p);
      assert IsBlank(s) <==> IsBlank(p) by {
        if IsBlank(p) {
          forall k | 0 <= k < |s| ensures IsTrimmable(s[k]) {
            if k < |s| - 1 { assert s[k] == p[k]; }
          }
        }
      }
    } else if s != [] {
      assert !IsTrimmable(s[|s| - 1]);
    }
  }

  /** `s.trim().isEmpty()` holds exactly when `s` is blank. */
  lemma TrimIsEmptyIffBlank(s: string)
    ensures Trim(s) == [] <==> IsBlank(s)
  {
    TrimLeadingShape(s);
    TrimTrailingEmpty(TrimLeading(s));
  }
}
