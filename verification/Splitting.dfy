/** Splitting text at a separator, and joining the parts again. */
module Splitting {

  function Join(parts: seq<string>, sep: char): string
    requires |parts| > 0
  {
    if |parts| == 1 then parts[0] else parts[0] + [sep] + Join(parts[1..], sep)
  }

  predicate Plain(part: string, sep: char) {
    sep !in part
  }

  ghost predicate AllPlain(parts: seq<string>, sep: char) {
    forall i :: 0 <= i < |parts| ==> Plain(parts[i], sep)
  }

  function Split(text: string, sep: char): (parts: seq<string>)
    ensures |parts| > 0 && Join(parts, sep) == text
    ensures AllPlain(parts, sep)
  {
    if text == "" then [""]
    else
      var rest := Split(text[1..], sep);
      if text[0] == sep then [""] + rest
      else
        var parts := [[text[0]] + rest[0]] + rest[1..];
        assert |rest| > 1 ==> parts[1..] == rest[1..];
        parts
  }

  lemma {:induction false} SplitJoin(parts: seq<string>, sep: char)
    requires |parts| > 0 && AllPlain(parts, sep)
    ensures Split(Join(parts, sep), sep) == parts
    decreases |parts|, |parts[0]|
  {
    var text := Join(parts, sep);
    if parts[0] == "" {
      if |parts| > 1 {
        SplitJoin(parts[1..], sep);
        assert text[1..] == Join(parts[1..], sep);
        assert parts == [""] + parts[1..];
      } else {
        assert parts == [""];
      }
    } else {
      var shorter := [parts[0][1..]] + parts[1..];
      assert shorter[1..] == parts[1..];
      assert parts[0][0] in parts[0] && Plain(parts[0], sep);
      assert Plain(parts[0][1..], sep);
      SplitJoin(shorter, sep);
      assert text[1..] == Join(shorter, sep);
      assert [text[0]] + shorter[0] == parts[0];
    }
  }

  lemma {:induction false} JoinAppend(a: seq<string>, b: seq<string>, sep: char)
    requires |a| > 0 && |b| > 0
    ensures Join(a + b, sep) == Join(a, sep) + [sep] + Join(b, sep)
  {
    assert (a + b)[0] == a[0];
    if |a| == 1 {
      assert (a + b)[1..] == b;
    } else {
      assert (a + b)[1..] == a[1..] + b;
      JoinAppend(a[1..], b, sep);
    }
  }
}
