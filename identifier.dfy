/**
 * `parse_name_version` and the line filter of `read_items_from_txt`: a
 * free-text line such as `Firebase-10.24.0` becomes the key
 * (`Firebase`, `10.24.0`); blank and `#` lines are skipped.
 *
 * The split follows the regular expression
 *   ^(?P<name>.+?)[-_](?P<ver>v?\d+(?:\.\d+)*.*)$
 * matched against the stripped line. Its lazy name group makes the split
 * happen at the EARLIEST separator that can start a version, which this
 * module computes with an explicit scan (`FirstSplit`).
 */
module Identifier {
  import opened Wrappers
  import opened Text

  /** A canonical library key: name and version (possibly empty). */
  datatype Ident = Ident(name: string, version: string)

  /** One accepted input line: the stripped line and its parsed key. */
  datatype Item = Item(raw: string, name: string, version: string)

  /** `\d` on ASCII text. */
  predicate IsDigit(c: char) {
    '0' <= c <= '9'
  }

  /** The `[-_]` character class. */
  predicate IsSeparator(c: char) {
    c == '-' || c == '_'
  }

  /** `t` can be matched by the version group `v?\d+(?:\.\d+)*.*`: it begins
      with a digit, or with a lowercase `v` and then a digit. (Everything
      after the first digit is absorbed by the trailing `.*`.) */
  predicate StartsVersion(t: string) {
    |t| > 0 && (IsDigit(t[0]) || (t[0] == 'v' && |t| > 1 && IsDigit(t[1])))
  }

  /** The regex can split `s` at index `i`: a non-empty name before it, a
      separator at it, and a version group after it. */
  predicate IsSplitAt(s: string, i: int) {
    1 <= i < |s| && IsSeparator(s[i]) && StartsVersion(s[i + 1..])
  }

  /** The least split index at or after `from`, found by scanning right. */
  function FirstSplit(s: string, from: nat): (r: Option<nat>)
    decreases |s| - from
    ensures r.Some? ==> from <= r.value && IsSplitAt(s, r.value)
    ensures r.Some? ==> forall j :: from <= j < r.value ==> !IsSplitAt(s, j)
    ensures r.None? ==> forall j :: from <= j < |s| ==> !IsSplitAt(s, j)
  {
    if from >= |s| then None
    else if IsSplitAt(s, from) then Some(from)
    else FirstSplit(s, from + 1)
  }

  /** Where `re.match` splits the stripped line `s`, if it matches at all.
      `.` does not match a line feed, and `s` (being stripped) cannot end in
      one, so a line feed anywhere in `s` defeats the match. */
  function SplitIndex(s: string): (r: Option<nat>)
    ensures r.None? ==> '\n' in s || forall i :: !IsSplitAt(s, i)
    ensures r.Some? ==> '\n' !in s && IsSplitAt(s, r.value) && forall j :: 0 <= j < r.value ==> !IsSplitAt(s, j)
  {
    if '\n' in s then None else FirstSplit(s, 1)
  }

  /** `parse_name_version` on an already stripped line. */
  function ParseStripped(s: string): Option<Ident> {
    if s == [] || s[0] == '#' then None
    else
      match SplitIndex(s)
      case None => Some(Ident(s, ""))
      case Some(i) => Some(Ident(Strip(s[..i]), VersionGroup(s[i + 1..])))
  }

  /** The version group after matching: stripped, then one leading `v` or `V`
      removed. */
  function VersionGroup(t: string): string {
    var ver := Strip(t);
    if |ver| > 0 && LowerChar(ver[0]) == 'v' then ver[1..] else ver
  }

  /** On a trimmed version group, only a lowercase `v` can be removed, and
      what is left begins with a digit. */
  lemma VersionGroupOf(t: string)
    requires StartsVersion(t) && IsTrimmed(t)
    ensures VersionGroup(t) == if t[0] == 'v' then t[1..] else t
    ensures VersionGroup(t) != [] && IsDigit(VersionGroup(t)[0])
  {
    StripTrimmed(t);
    if t[0] == 'v' {
      assert LowerChar(t[0]) == 'v';
      assert IsDigit(t[1..][0]);
    } else {
      assert IsDigit(t[0]);
      assert LowerChar(t[0]) == t[0];
    }
  }

  /** `parse_name_version(line)`. */
  function ParseNameVersion(line: string): Option<Ident> {
    ParseStripped(Strip(line))
  }

  /** The result is `None` exactly for blank lines and `#` comments. */
  lemma ParseNoneIff(line: string)
    ensures ParseNameVersion(line).None? <==> Strip(line) == [] || Strip(line)[0] == '#'
  {
  }

  /** When no separator is followed by `v?<digit>`, the whole stripped line
      is the name and the version is empty. */
  lemma ParseWithoutSplit(line: string)
    requires Strip(line) != [] && Strip(line)[0] != '#'
    requires forall i :: !IsSplitAt(Strip(line), i)
    ensures ParseNameVersion(line) == Some(Ident(Strip(line), ""))
  {
  }

  /** Otherwise the line splits at the earliest separator that starts a
      version, and one leading `v` is dropped from the version. */
  lemma ParseAtEarliestSplit(line: string, i: nat)
    requires Strip(line) != [] && Strip(line)[0] != '#' && '\n' !in Strip(line)
    requires IsSplitAt(Strip(line), i)
    requires forall j :: 0 <= j < i ==> !IsSplitAt(Strip(line), j)
    ensures ParseNameVersion(line) ==
              Some(Ident(Strip(Strip(line)[..i]),
                         if Strip(line)[i + 1] == 'v' then Strip(line)[i + 2..] else Strip(line)[i + 1..]))
  {
    var s := Strip(line);
    var r := SplitIndex(s);
    assert r == Some(i);
    StripIsTrim(line);
    VersionTail(s, i);
    assert ParseStripped(s) == Some(Ident(Strip(s[..i]), VersionGroup(s[i + 1..])));
  }

  /** After a split of a stripped line, the version group is trimmed, so only
      a lowercase `v` can come off it and a digit is left at its head. */
  lemma VersionTail(s: string, i: nat)
    requires IsTrimmed(s) && IsSplitAt(s, i)
    ensures VersionGroup(s[i + 1..]) == if s[i + 1] == 'v' then s[i + 2..] else s[i + 1..]
    ensures VersionGroup(s[i + 1..]) != [] && IsDigit(VersionGroup(s[i + 1..])[0])
  {
    var t := s[i + 1..];
    assert t[|t| - 1] == s[|s| - 1];
    VersionGroupOf(t);
    assert t[1..] == s[i + 2..];
  }

  /** Every accepted line yields a non-empty, trimmed name and a version that
      is empty or begins with a digit (so never with `v` or `V`). */
  lemma ParseWellFormed(line: string)
    requires ParseNameVersion(line).Some?
    ensures var id := ParseNameVersion(line).value;
            id.name != [] && IsTrimmed(id.name) &&
            (id.version == [] || IsDigit(id.version[0]))
  {
    var s := Strip(line);
    StripIsTrim(line);
    match SplitIndex(s)
    case None =>
    case Some(i) =>
      var head := s[..i];
      assert head[0] == s[0];
      StripIsTrim(head);
      VersionTail(s, i);
  }

  /** The line filter of `read_items_from_txt`: each line that parses becomes
      (stripped line, name, version); the others are dropped. */
  function ItemsOf(lines: seq<string>): (r: seq<Item>)
    ensures |r| <= |lines|
  {
    if lines == [] then []
    else
      var last := lines[|lines| - 1];
      ItemsOf(lines[..|lines| - 1]) +
        match ParseNameVersion(last)
        case None => []
        case Some(id) => [Item(Strip(last), id.name, id.version)]
  }

  /** An item whose stripped line parses back to its own key. */
  predicate Consistent(it: Item) {
    ParseNameVersion(it.raw) == Some(Ident(it.name, it.version))
  }

  /** Every item of the filter is consistent with its raw line, and every
      line that parses is represented. */
  lemma {:induction false} ItemsOfSound(lines: seq<string>)
    ensures forall it :: it in ItemsOf(lines) ==> Consistent(it) && it.raw != []
    ensures forall k :: 0 <= k < |lines| && ParseNameVersion(lines[k]).Some? ==>
              var id := ParseNameVersion(lines[k]).value;
              Item(Strip(lines[k]), id.name, id.version) in ItemsOf(lines)
  {
    if lines != [] {
      var init := lines[..|lines| - 1];
      var last := lines[|lines| - 1];
      ItemsOfSound(init);
      StripIdempotent(last);
      forall k | 0 <= k < |lines| && ParseNameVersion(lines[k]).Some?
        ensures var id := ParseNameVersion(lines[k]).value;
                Item(Strip(lines[k]), id.name, id.version) in ItemsOf(lines)
      {
        if k < |lines| - 1 {
          assert lines[k] == init[k];
        }
      }
    }
  }

  /** The loop at the heart of `read_items_from_txt`, over lines already read. */
  method ReadItems(lines: seq<string>) returns (items: seq<Item>)
    ensures items == ItemsOf(lines)
  {
    items := [];
    for k := 0 to |lines|
      invariant items == ItemsOf(lines[..k])
    {
      assert lines[..k + 1][..k] == lines[..k];
      var ln := lines[k];
      var parsed := ParseNameVersion(ln);
      if parsed.Some? {
        items := items + [Item(Strip(ln), parsed.value.name, parsed.value.version)];
      }
    }
    assert lines[..|lines|] == lines;
  }

  /** A concrete line whose earliest qualifying separator is at `i`. */
  lemma SplitExample(s: string, i: nat, name: string, version: string)
    requires IsTrimmed(s) && s != [] && s[0] != '#' && '\n' !in s
    requires IsSplitAt(s, i) && forall j :: 0 <= j < i ==> !IsSplitAt(s, j)
    requires s[..i] == name && IsTrimmed(name)
    requires version == if s[i + 1] == 'v' then s[i + 2..] else s[i + 1..]
    ensures ParseNameVersion(s) == Some(Ident(name, version))
  {
    StripTrimmed(s);
    assert Strip(s) == s;
    ParseAtEarliestSplit(s, i);
    StripTrimmed(name);
  }

  /** The docstring's first example. */
  lemma ExampleFirebase()
    ensures ParseNameVersion("Firebase-10.24.0") == Some(Ident("Firebase", "10.24.0"))
  {
    var s := "Firebase-10.24.0";
    assert s[..8] == "Firebase" && s[9..] == "10.24.0";
    assert forall j :: 0 <= j < 8 ==> !IsSeparator(s[j]);
    SplitExample(s, 8, "Firebase", "10.24.0");
  }

  /** The docstring's second example. */
  lemma ExampleAFNetworking()
    ensures ParseNameVersion("AFNetworking-4.0.1") == Some(Ident("AFNetworking", "4.0.1"))
  {
    var s := "AFNetworking-4.0.1";
    assert s[..12] == "AFNetworking" && s[13..] == "4.0.1";
    assert forall j :: 0 <= j < 12 ==> !IsSeparator(s[j]);
    SplitExample(s, 12, "AFNetworking", "4.0.1");
  }

  /** The docstring's third example: the `v` prefix is removed. */
  lemma ExampleDPHSDK()
    ensures ParseNameVersion("DPHSDK-v3.4.3") == Some(Ident("DPHSDK", "3.4.3"))
  {
    var s := "DPHSDK-v3.4.3";
    assert s[..6] == "DPHSDK" && s[8..] == "3.4.3";
    assert forall j :: 0 <= j < 6 ==> !IsSeparator(s[j]);
    SplitExample(s, 6, "DPHSDK", "3.4.3");
  }

  /** The split is at the earliest qualifying separator, not the last one
      (which the comment beside the regex suggests): the second version-like
      group stays in the version. */
  lemma ExampleEarliestSplit()
    ensures ParseNameVersion("lib-1.0-2.0") == Some(Ident("lib", "1.0-2.0"))
  {
    var s := "lib-1.0-2.0";
    assert s[..3] == "lib" && s[4..] == "1.0-2.0";
    assert forall j :: 0 <= j < 3 ==> !IsSeparator(s[j]);
    SplitExample(s, 3, "lib", "1.0-2.0");
  }

  /** A separator that is not followed by a version is part of the name. */
  lemma ExampleSeparatorInName()
    ensures ParseNameVersion("my_lib-2-beta") == Some(Ident("my_lib", "2-beta"))
  {
    var s := "my_lib-2-beta";
    assert s[..6] == "my_lib" && s[7..] == "2-beta";
    assert s[3..] == "lib-2-beta";
    assert forall j :: 0 <= j < 6 && j != 2 ==> !IsSeparator(s[j]);
    assert !StartsVersion(s[3..]);
    SplitExample(s, 6, "my_lib", "2-beta");
  }

  /** A line with no version-shaped suffix is all name. */
  lemma ExampleNoVersion()
    ensures ParseNameVersion("just-a-name") == Some(Ident("just-a-name", ""))
  {
    var s := "just-a-name";
    assert s[5..] == "a-name" && s[7..] == "name";
    assert forall j :: 0 <= j < |s| && j != 4 && j != 6 ==> !IsSeparator(s[j]);
    assert !StartsVersion(s[5..]) && !StartsVersion(s[7..]);
    StripTrimmed(s);
    ParseWithoutSplit(s);
  }

  /** An uppercase `V` cannot start the version group, so such a line does
      not split at all. */
  lemma ExampleUppercaseV()
    ensures ParseNameVersion("lib-V1.0") == Some(Ident("lib-V1.0", ""))
  {
    var s := "lib-V1.0";
    assert s[4..] == "V1.0";
    assert forall j :: 0 <= j < |s| && j != 3 ==> !IsSeparator(s[j]);
    assert !StartsVersion(s[4..]);
    StripTrimmed(s);
    ParseWithoutSplit(s);
  }

  /** Blank lines and comments are skipped. */
  lemma ExampleSkipped()
    ensures ParseNameVersion("") == None
    ensures ParseNameVersion("  # comment") == None
  {
    var c := "  # comment";
    assert SkipSpaces(c, 2) == 2;
    assert StripStart(c) == 2;
    assert Strip(c)[0] == '#';
  }
}
