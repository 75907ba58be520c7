/** strings.Split and strings.Join for a one-character separator, and the laws that let
    the rest of the project read a path as the sequence of its segments. */
module Segments {

  function Split(s: string, sep: char): (segments: seq<string>)
    ensures |segments| >= 1
    ensures forall k :: 0 <= k < |segments| ==> sep !in segments[k]
  {
    if s == "" then [""]
    else
      var rest := Split(s[1..], sep);
      if s[0] == sep then [""] + rest
      else [[s[0]] + rest[0]] + rest[1..]
  }

  function Join(segments: seq<string>, sep: char): string
    requires |segments| >= 1
  {
    if |segments| == 1 then segments[0]
    else segments[0] + [sep] + Join(segments[1..], sep)
  }

  lemma {:induction false} JoinSplit(s: string, sep: char)
    ensures Join(Split(s, sep), sep) == s
  {
    if s != "" {
      var rest := Split(s[1..], sep);
      JoinSplit(s[1..], sep);
      if s[0] == sep {
        assert ([""] + rest)[1..] == rest;
        assert s == "" + [sep] + s[1..];
      } else if |rest| == 1 {
        assert s == [s[0]] + s[1..];
      } else {
        var segments := [[s[0]] + rest[0]] + rest[1..];
        assert segments[1..] == rest[1..];
        calc {
          Join(segments, sep);
          [s[0]] + rest[0] + [sep] + Join(rest[1..], sep);
          [s[0]] + (rest[0] + [sep] + Join(rest[1..], sep));
          [s[0]] + s[1..];
          s;
        }
      }
    }
  }

  lemma {:induction false} SplitAppend(a: string, b: string, sep: char)
    ensures Split(a + [sep] + b, sep) == Split(a, sep) + Split(b, sep)
  {
    var whole := a + [sep] + b;
    if a == "" {
      assert whole[1..] == b;
    } else {
      var rest, tail := Split(a[1..], sep), Split(b, sep);
      assert Split(whole[1..], sep) == rest + tail by {
        assert whole[1..] == a[1..] + [sep] + b;
        SplitAppend(a[1..], b, sep);
      }
      assert whole[0] == a[0];
      if a[0] == sep {
        assert [""] + (rest + tail) == [""] + rest + tail;
      } else {
        assert (rest + tail)[0] == rest[0] && (rest + tail)[1..] == rest[1..] + tail;
        assert [[a[0]] + rest[0]] + (rest[1..] + tail) == [[a[0]] + rest[0]] + rest[1..] + tail;
      }
    }
  }

  lemma {:induction false} SplitWithoutSeparator(s: string, sep: char)
    requires sep !in s
    ensures Split(s, sep) == [s]
  {
    if s != "" {
      SplitWithoutSeparator(s[1..], sep);
      assert s == [s[0]] + s[1..];
    }
  }

  lemma {:induction false} SplitJoin(segments: seq<string>, sep: char)
    requires |segments| >= 1
    requires forall k :: 0 <= k < |segments| ==> sep !in segments[k]
    ensures Split(Join(segments, sep), sep) == segments
  {
    SplitWithoutSeparator(segments[0], sep);
    if |segments| > 1 {
      SplitJoin(segments[1..], sep);
      SplitAppend(segments[0], Join(segments[1..], sep), sep);
      assert segments == [segments[0]] + segments[1..];
    }
  }

  lemma {:induction false} JoinAppend(a: seq<string>, b: seq<string>, sep: char)
    requires |a| >= 1 && |b| >= 1
    ensures Join(a + b, sep) == Join(a, sep) + [sep] + Join(b, sep)
  {
    if |a| == 1 {
      assert (a + b)[1..] == b;
    } else {
      JoinAppend(a[1..], b, sep);
      assert (a + b)[1..] == a[1..] + b;
    }
  }
}
