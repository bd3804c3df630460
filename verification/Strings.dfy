/** Splitting a string at a separator character, and joining the parts again. */
module Strings {

  predicate Free(s: string, separator: char) { separator !in s }

  ghost predicate AllFree(parts: seq<string>, separator: char)
  {
    forall k :: 0 <= k < |parts| ==> Free(parts[k], separator)
  }

  /** `s.split(separator)`. */
  function Split(s: string, separator: char): (parts: seq<string>)
    ensures |parts| >= 1
  {
    if s == "" then [""]
    else
      var rest := Split(s[1..], separator);
      if s[0] == separator then [""] + rest else [[s[0]] + rest[0]] + rest[1..]
  }

  /** `parts.join(separator)`, of at least one part. */
  function Join(parts: seq<string>, separator: char): string
    requires |parts| >= 1
  {
    if |parts| == 1 then parts[0] else parts[0] + [separator] + Join(parts[1..], separator)
  }

  /** Splitting loses nothing, and leaves no separator in a part. */
  lemma {:induction false} JoinSplit(s: string, separator: char)
    ensures Join(Split(s, separator), separator) == s
    ensures AllFree(Split(s, separator), separator)
  {
    if s == "" {
    } else {
      JoinSplit(s[1..], separator);
      var rest := Split(s[1..], separator);
      if s[0] == separator {
        assert ([""] + rest)[1..] == rest;
      } else {
        var parts := [[s[0]] + rest[0]] + rest[1..];
        assert parts[1..] == rest[1..];
      }
    }
  }

  /** Parts without the separator come back as they were. */
  lemma {:induction false} SplitJoin(parts: seq<string>, separator: char)
    requires |parts| >= 1 && AllFree(parts, separator)
    ensures Split(Join(parts, separator), separator) == parts
  {
    if |parts| == 1 {
      SplitBehind(parts[0], "", separator);
      assert parts[0] + "" == parts[0] && parts == [parts[0]];
    } else {
      var behind := Join(parts[1..], separator);
      var joint := [separator] + behind;
      SplitJoin(parts[1..], separator);
      SplitBehind(parts[0], joint, separator);
      assert Join(parts, separator) == parts[0] + joint;
      assert joint[1..] == behind;
      assert Split(joint, separator) == [""] + parts[1..];
      assert parts[0] + "" == parts[0] && parts == [parts[0]] + parts[1..];
    }
  }

  /** A part without the separator only lengthens the first part of what is behind it. */
  lemma {:induction false} SplitBehind(part: string, behind: string, separator: char)
    requires Free(part, separator)
    ensures var rest := Split(behind, separator);
      Split(part + behind, separator) == [part + rest[0]] + rest[1..]
  {
    var rest := Split(behind, separator);
    if part == "" {
      assert part + behind == behind && part + rest[0] == rest[0];
    } else {
      assert (part + behind)[1..] == part[1..] + behind;
      SplitBehind(part[1..], behind, separator);
      assert [part[0]] + (part[1..] + rest[0]) == part + rest[0];
    }
  }
}
