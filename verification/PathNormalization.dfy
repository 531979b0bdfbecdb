/**
  Normalising request paths for metric labels.  What Python accepts as a digit and as a
  hexadecimal number is left open; only '{' must not be a digit.  The 8-4-4-4-12 shape is
  the text form of section 4 of RFC 9562.
 */
module PathNormalization {

  datatype Text = Text(digit: char -> bool, hexadecimal: string -> bool)

  const PLACEHOLDER := "{id}"

  // ---------------------------------------------------------------- split and join

  function Split(s: string, sep: char): (parts: seq<string>)
    ensures parts != []
    ensures forall k :: 0 <= k < |parts| ==> sep !in parts[k]
  {
    if s == [] then [""]
    else
      var rest := Split(s[1..], sep);
      if s[0] == sep then [""] + rest else [[s[0]] + rest[0]] + rest[1..]
  }

  function Join(parts: seq<string>, sep: char): string
    requires parts != []
  {
    if |parts| == 1 then parts[0] else parts[0] + [sep] + Join(parts[1..], sep)
  }

  lemma {:induction false} JoinSplit(s: string, sep: char)
    ensures Join(Split(s, sep), sep) == s
  {
    if s != [] {
      JoinSplit(s[1..], sep);
      var rest := Split(s[1..], sep);
      assert s == [s[0]] + s[1..];
      if s[0] == sep {
        assert ([""] + rest)[1..] == rest;
      } else {
        var parts := [[s[0]] + rest[0]] + rest[1..];
        assert parts[1..] == rest[1..];
      }
    }
  }

  lemma {:induction false} SplitAtSeparator(part: string, rest: string, sep: char)
    requires sep !in part
    ensures Split(part + [sep] + rest, sep) == [part] + Split(rest, sep)
    ensures Split(part, sep) == [part]
  {
    var s := part + [sep] + rest;
    if part == [] {
      assert s[1..] == rest;
    } else {
      SplitAtSeparator(part[1..], rest, sep);
      assert s[1..] == part[1..] + [sep] + rest && part == [part[0]] + part[1..];
      assert ([part[1..]] + Split(rest, sep))[1..] == Split(rest, sep);
    }
  }

  lemma {:induction false} SplitJoin(parts: seq<string>, sep: char)
    requires parts != [] && forall k :: 0 <= k < |parts| ==> sep !in parts[k]
    ensures Split(Join(parts, sep), sep) == parts
  {
    if |parts| == 1 {
      SplitAtSeparator(parts[0], "", sep);
    } else {
      SplitJoin(parts[1..], sep);
      SplitAtSeparator(parts[0], Join(parts[1..], sep), sep);
      assert parts == [parts[0]] + parts[1..];
    }
  }

  // ---------------------------------------------------------------- segments

  function CountOf(s: string, c: char): nat {
    if s == [] then 0 else (if s[0] == c then 1 else 0) + CountOf(s[1..], c)
  }

  function Without(s: string, c: char): string {
    if s == [] then [] else (if s[0] == c then [] else [s[0]]) + Without(s[1..], c)
  }

  predicate IsUuid(t: Text, value: string) {
    && |value| == 36 && CountOf(value, '-') == 4
    && (var parts := Split(value, '-');
        var lengths := [8, 4, 4, 4, 12];
        forall k :: 0 <= k < |parts| && k < |lengths| ==> |parts[k]| == lengths[k])
    && t.hexadecimal(Without(value, '-'))
  }

  predicate IsDigits(t: Text, s: string) {
    s != "" && forall k :: 0 <= k < |s| ==> t.digit(s[k])
  }

  predicate IsId(t: Text, part: string) {
    IsUuid(t, part) || IsDigits(t, part) || "inst-" <= part || "worker-" <= part
  }

  function NormalizePart(t: Text, part: string): string {
    if part != "" && IsId(t, part) then PLACEHOLDER else part
  }

  function NormalizeParts(t: Text, parts: seq<string>): (normalized: seq<string>)
    ensures |normalized| == |parts|
    ensures forall k :: 0 <= k < |parts| ==> normalized[k] == NormalizePart(t, parts[k])
  {
    if parts == [] then [] else [NormalizePart(t, parts[0])] + NormalizeParts(t, parts[1..])
  }

  function Normalize(t: Text, path: string): string {
    Join(NormalizeParts(t, Split(path, '/')), '/')
  }

  method NormalizePath(t: Text, path: string) returns (normalized: string)
    ensures normalized == Normalize(t, path)
  {
    var parts := Split(path, '/');
    var normalizedParts := [];
    for i := 0 to |parts|
      invariant |normalizedParts| == i
      invariant forall k :: 0 <= k < i ==> normalizedParts[k] == NormalizePart(t, parts[k])
    {
      var part := parts[i];
      if part == "" {
        normalizedParts := normalizedParts + [part];
      } else if IsUuid(t, part) {
        normalizedParts := normalizedParts + [PLACEHOLDER];
      } else if IsDigits(t, part) {
        normalizedParts := normalizedParts + [PLACEHOLDER];
      } else if "inst-" <= part || "worker-" <= part {
        normalizedParts := normalizedParts + [PLACEHOLDER];
      } else {
        normalizedParts := normalizedParts + [part];
      }
    }
    assert normalizedParts == NormalizeParts(t, parts);
    normalized := Join(normalizedParts, '/');
  }

  // ---------------------------------------------------------------- what counts as an identifier

  function Concat(parts: seq<string>): string {
    if parts == [] then "" else parts[0] + Concat(parts[1..])
  }

  /** Five groups of 8, 4, 4, 4 and 12 characters, hexadecimal together, with a hyphen between them. */
  ghost predicate UuidOf(t: Text, value: string, parts: seq<string>) {
    && |parts| == 5
    && |parts[0]| == 8 && |parts[1]| == 4 && |parts[2]| == 4 && |parts[3]| == 4 && |parts[4]| == 12
    && (forall k :: 0 <= k < 5 ==> '-' !in parts[k])
    && value == Join(parts, '-') && t.hexadecimal(Concat(parts))
  }

  lemma {:induction false} SplitCounts(s: string, sep: char)
    ensures |Split(s, sep)| == CountOf(s, sep) + 1
    ensures Concat(Split(s, sep)) == Without(s, sep)
  {
    if s != [] {
      SplitCounts(s[1..], sep);
      var rest := Split(s[1..], sep);
      if s[0] == sep {
        assert ([""] + rest)[1..] == rest;
      } else {
        assert ([[s[0]] + rest[0]] + rest[1..])[1..] == rest[1..];
      }
    }
  }

  lemma {:induction false} JoinLength(parts: seq<string>, sep: char)
    requires parts != []
    ensures |Join(parts, sep)| == |Concat(parts)| + |parts| - 1
  {
    if |parts| > 1 {
      JoinLength(parts[1..], sep);
    } else {
      assert Concat(parts[1..]) == "";
    }
  }

  lemma ConcatOf5(parts: seq<string>)
    requires |parts| == 5
    ensures |Concat(parts)| == |parts[0]| + |parts[1]| + |parts[2]| + |parts[3]| + |parts[4]|
  {
    assert parts[1..][1..] == parts[2..] && parts[2..][1..] == parts[3..] && parts[3..][1..] == parts[4..];
    assert Concat(parts[4..][1..]) == "";
    assert Concat(parts[4..]) == parts[4] + Concat(parts[4..][1..]);
    assert Concat(parts[3..]) == parts[3] + Concat(parts[4..]);
    assert Concat(parts[2..]) == parts[2] + Concat(parts[3..]);
    assert Concat(parts[1..]) == parts[1] + Concat(parts[2..]);
  }

  /** The check tells exactly the text form of a UUID. */
  lemma IsUuidIff(t: Text, value: string)
    ensures IsUuid(t, value) <==> exists parts :: UuidOf(t, value, parts)
  {
    if IsUuid(t, value) {
      var parts, lengths := Split(value, '-'), [8, 4, 4, 4, 12];
      SplitCounts(value, '-');
      JoinSplit(value, '-');
      forall k | 0 <= k < 5
        ensures |parts[k]| == lengths[k]
      {
      }
      assert UuidOf(t, value, parts);
    }
    if parts :| UuidOf(t, value, parts) {
      SplitJoin(parts, '-');
      SplitCounts(value, '-');
      JoinLength(parts, '-');
      ConcatOf5(parts);
    }
  }

  lemma PrefixIff(prefix: string, s: string)
    ensures prefix <= s <==> |s| >= |prefix| && s[..|prefix|] == prefix
  {
  }

  /** A segment is replaced exactly if it is a UUID, a number, or starts like the id of an instance or a worker. */
  lemma PartMeans(t: Text, part: string)
    ensures
      var id := (exists parts :: UuidOf(t, part, parts))
                || (part != "" && forall k :: 0 <= k < |part| ==> t.digit(part[k]))
                || (|part| >= 5 && part[..5] == "inst-") || (|part| >= 7 && part[..7] == "worker-");
      NormalizePart(t, part) == if id then "{id}" else part
  {
    IsUuidIff(t, part);
    PrefixIff("inst-", part);
    PrefixIff("worker-", part);
  }

  // ---------------------------------------------------------------- the whole path

  /** Segment by segment: the segments of the result are the normalised segments. */
  lemma SegmentsOf(t: Text, path: string)
    ensures Split(Normalize(t, path), '/') == NormalizeParts(t, Split(path, '/'))
    ensures |Split(Normalize(t, path), '/')| == |Split(path, '/')|
  {
    SplitJoin(NormalizeParts(t, Split(path, '/')), '/');
  }

  /** Normalising twice is normalising once. */
  lemma Idempotent(t: Text, path: string)
    requires !t.digit('{')
    ensures Normalize(t, Normalize(t, path)) == Normalize(t, path)
  {
    SegmentsOf(t, path);
    var once := NormalizeParts(t, Split(path, '/'));
    forall k | 0 <= k < |once|
      ensures NormalizePart(t, once[k]) == once[k]
    {
      PartStays(t, Split(path, '/')[k]);
    }
    assert NormalizeParts(t, once) == once;
  }

  lemma PartStays(t: Text, part: string)
    requires !t.digit('{')
    ensures NormalizePart(t, NormalizePart(t, part)) == NormalizePart(t, part)
  {
    assert PLACEHOLDER[0] == '{' && |PLACEHOLDER| == 4;
    assert !IsId(t, PLACEHOLDER);
  }
}
