/** The Windows update check (`UpdateService` in
    platforms/windows/GoNhanh/Services/UpdateService.cs): the release tag is
    stripped of its leading `v`s and compared with the running version,
    component by component, as dot-separated integers.  The HTTP request and
    the JSON parsing are replaced by their outcome. */
module WinUpdate {
  import opened Wrappers

  // ----- String.Split('.') and its inverse -----

  const Dot: char := '.'

  /** Joins the pieces with the separator between consecutive ones. */
  function Join(parts: seq<string>, sep: char): string
    requires |parts| >= 1
  {
    if |parts| == 1 then parts[0] else parts[0] + [sep] + Join(parts[1..], sep)
  }

  /** `s.Split(sep)`: the maximal separator-free pieces, empty ones
      included, so there is always at least one piece. */
  function Split(s: string, sep: char): (parts: seq<string>)
    ensures |parts| >= 1
    ensures forall i :: 0 <= i < |parts| ==> sep !in parts[i]
    ensures Join(parts, sep) == s
  {
    if s == [] then [[]]
    else if s[0] == sep then
      var rest := Split(s[1..], sep);
      assert s == [] + [sep] + Join(rest, sep);
      [[]] + rest
    else
      var rest := Split(s[1..], sep);
      var parts := [[s[0]] + rest[0]] + rest[1..];
      assert parts[1..] == rest[1..];
      assert s == [s[0]] + s[1..];
      parts
  }

  /** Splitting undoes joining separator-free pieces. */
  lemma {:induction false} SplitJoin(parts: seq<string>, sep: char)
    requires |parts| >= 1
    requires forall i :: 0 <= i < |parts| ==> sep !in parts[i]
    ensures Split(Join(parts, sep), sep) == parts
  {
    SplitPiece(parts[0], sep, if |parts| == 1 then [] else [sep] + Join(parts[1..], sep));
    if |parts| > 1 {
      SplitJoin(parts[1..], sep);
      var tail := Join(parts[1..], sep);
      assert ([sep] + tail)[1..] == tail;
      assert parts == [parts[0]] + parts[1..];
    }
  }

  /** A separator-free piece in front of a separator-led rest (or of
      nothing) becomes the first piece. */
  lemma {:induction false} SplitPiece(piece: string, sep: char, rest: string)
    requires sep !in piece
    requires rest == [] || rest[0] == sep
    ensures Split(piece + rest, sep)
         == if rest == [] then [piece] else [piece] + Split(rest[1..], sep)
  {
    if piece == [] {
      assert piece + rest == rest;
    } else {
      SplitPiece(piece[1..], sep, rest);
      assert (piece + rest)[1..] == piece[1..] + rest;
      assert [piece[0]] + piece[1..] == piece;
    }
  }

  // ----- int.Parse -----

  /** The white space `int.Parse` skips around the number: U+0009 to U+000D
      and the space. */
  predicate IsWhite(c: char) { c == ' ' || '\t' <= c <= '\r' }

  predicate IsDigit(c: char) { '0' <= c <= '9' }

  /** Every character is an ASCII digit. */
  predicate AllDigits(ds: string) {
    ds == [] || (AllDigits(ds[..|ds| - 1]) && IsDigit(ds[|ds| - 1]))
  }

  function StripLeading(s: string): (r: string)
    ensures |r| <= |s| && r == s[|s| - |r|..]
    ensures r == [] || !IsWhite(r[0])
  {
    if s != [] && IsWhite(s[0]) then StripLeading(s[1..]) else s
  }

  function StripTrailing(s: string): (r: string)
    ensures |r| <= |s| && r == s[..|r|]
    ensures r == [] || !IsWhite(r[|r| - 1])
  {
    if s != [] && IsWhite(s[|s| - 1]) then StripTrailing(s[..|s| - 1]) else s
  }

  /** The value of a decimal digit string, most significant digit first. */
  function DigitsValue(ds: string): (v: nat)
    requires AllDigits(ds)
  {
    if ds == [] then 0
    else DigitsValue(ds[..|ds| - 1]) * 10 + DigitValue(ds[|ds| - 1])
  }

  function DigitValue(c: char): (d: nat)
    requires IsDigit(c)
    ensures d < 10
  {
    (c as int) - ('0' as int)
  }

  function DigitChar(d: nat): (c: char)
    requires d < 10
    ensures IsDigit(c) && DigitValue(c) == d
  {
    ('0' as int + d) as char
  }

  const Int32Min: int := -0x8000_0000
  const Int32Max: int := 0x7FFF_FFFF

  /** `int.Parse(s)` with the invariant culture: optional white space, an
      optional sign, one or more ASCII digits, optional white space, and a
      value that fits in 32 bits; `None` where it throws. */
  function ParseInt32(s: string): (r: Option<int>)
    ensures r.Some? ==> Int32Min <= r.value <= Int32Max
  {
    var body := StripTrailing(StripLeading(s));
    if body == [] then None
    else
      var negative := body[0] == '-';
      var digits := if body[0] == '-' || body[0] == '+' then body[1..] else body;
      if digits == [] || !AllDigits(digits) then None
      else
        var magnitude: int := DigitsValue(digits);
        var v := if negative then -magnitude else magnitude;
        if Int32Min <= v <= Int32Max then Some(v) else None
  }

  /** The decimal form of a natural number, without leading zeros. */
  function Show(n: nat): (s: string)
    ensures |s| >= 1 && AllDigits(s) && IsDigit(s[0])
  {
    if n < 10 then
      var s := [DigitChar(n)];
      assert s[..0] == [];
      s
    else
      var s := Show(n / 10) + [DigitChar(n % 10)];
      assert s[..|s| - 1] == Show(n / 10);
      s
  }

  lemma {:induction false} DigitsHaveNoDot(ds: string)
    requires AllDigits(ds)
    ensures Dot !in ds
  {
    if ds != [] {
      DigitsHaveNoDot(ds[..|ds| - 1]);
      assert ds == ds[..|ds| - 1] + [ds[|ds| - 1]];
    }
  }

  lemma {:induction false} DigitsOfShow(n: nat)
    ensures DigitsValue(Show(n)) == n
  {
    if n >= 10 {
      DigitsOfShow(n / 10);
      var s := Show(n);
      assert s[..|s| - 1] == Show(n / 10);
    }
  }

  /** Parsing reads back every non-negative 32-bit number. */
  lemma ParseShow(n: nat)
    requires n <= Int32Max
    ensures ParseInt32(Show(n)) == Some(n)
  {
    var s := Show(n);
    assert !IsWhite(s[0]) && s[0] != '-' && s[0] != '+';
    assert StripLeading(s) == s;
    assert IsDigit(s[|s| - 1]);
    assert StripTrailing(s) == s;
    DigitsOfShow(n);
  }

  // ----- IsNewerVersion -----

  /** All the values, or `None` when one of them is missing. */
  function AllValues(opts: seq<Option<int>>): (r: Option<seq<int>>)
    ensures r.Some? <==> forall i :: 0 <= i < |opts| ==> opts[i].Some?
    ensures r.Some? ==> |r.value| == |opts| && forall i :: 0 <= i < |opts| ==> r.value[i] == opts[i].value
  {
    if opts == [] then Some([])
    else
      var rest := AllValues(opts[1..]);
      assert forall i :: 1 <= i < |opts| ==> opts[i] == opts[1..][i - 1];
      if opts[0].Some? && rest.Some? then Some([opts[0].value] + rest.value) else None
  }

  /** `Split('.').Select(int.Parse).ToArray()`; `None` when a piece throws. */
  function ParseParts(parts: seq<string>): Option<seq<int>> {
    AllValues(seq(|parts|, i requires 0 <= i < |parts| => ParseInt32(parts[i])))
  }

  /** The version order: the first differing component decides; with no
      difference the longer list is the newer one. */
  function Newer(latest: seq<int>, current: seq<int>): bool {
    if latest == [] || current == [] then |latest| > |current|
    else if latest[0] > current[0] then true
    else if latest[0] < current[0] then false
    else Newer(latest[1..], current[1..])
  }

  /** The answer of `IsNewerVersion`; a parse failure on either side is
      caught and gives false. */
  function IsNewer(latest: string, current: string): bool {
    match (ParseParts(Split(latest, Dot)), ParseParts(Split(current, Dot)))
    case (Some(a), Some(b)) => Newer(a, b)
    case _ => false
  }

  /** `IsNewerVersion`: parses both versions; a parse failure gives false. */
  method IsNewerVersion(latest: string, current: string) returns (r: bool)
    ensures r == IsNewer(latest, current)
  {
    var latestParts := ParseParts(Split(latest, Dot));
    var currentParts := ParseParts(Split(current, Dot));
    if latestParts.None? || currentParts.None? {
      return false;
    }
    r := CompareParts(latestParts.value, currentParts.value);
  }

  /** The loop of `IsNewerVersion`: the common prefix with early returns,
      then the lengths. */
  method CompareParts(a: seq<int>, b: seq<int>) returns (r: bool)
    ensures r == Newer(a, b)
  {
    var n := if |a| < |b| then |a| else |b|;
    for i := 0 to n
      invariant Newer(a, b) == Newer(a[i..], b[i..])
    {
      assert a[i..][0] == a[i] && b[i..][0] == b[i];
      assert a[i..][1..] == a[i + 1..] && b[i..][1..] == b[i + 1..];
      if a[i] > b[i] {
        return true;
      }
      if a[i] < b[i] {
        return false;
      }
    }
    assert a[n..] == [] || b[n..] == [];
    return |a| > |b|;
  }

  // ----- Properties of the order -----

  /** The first differing component decides. */
  lemma {:induction false} FirstDifferenceDecides(a: seq<int>, b: seq<int>, i: nat)
    requires i < |a| && i < |b| && a[..i] == b[..i] && a[i] != b[i]
    ensures Newer(a, b) <==> a[i] > b[i]
  {
    if i > 0 {
      assert a[0] == a[..i][0] && b[0] == b[..i][0];
      assert a[1..][..i - 1] == a[1..i] == a[..i][1..];
      assert b[1..][..i - 1] == b[1..i] == b[..i][1..];
      FirstDifferenceDecides(a[1..], b[1..], i - 1);
    }
  }

  /** With an equal common prefix the longer list is the newer one. */
  lemma {:induction false} EqualPrefixComparesLengths(a: seq<int>, b: seq<int>)
    requires var n := if |a| < |b| then |a| else |b|; a[..n] == b[..n]
    ensures Newer(a, b) <==> |a| > |b|
  {
    if a != [] && b != [] {
      var n := if |a| < |b| then |a| else |b|;
      assert a[0] == a[..n][0] && b[0] == b[..n][0];
      assert a[1..][..n - 1] == a[..n][1..] && b[1..][..n - 1] == b[..n][1..];
      EqualPrefixComparesLengths(a[1..], b[1..]);
    }
  }

  /** No version is newer than itself. */
  lemma {:induction false} NewerIrreflexive(a: seq<int>)
    ensures !Newer(a, a)
  {
    if a != [] {
      NewerIrreflexive(a[1..]);
    }
  }

  /** Two versions are never each newer than the other. */
  lemma {:induction false} NewerAsymmetric(a: seq<int>, b: seq<int>)
    ensures !(Newer(a, b) && Newer(b, a))
  {
    if a != [] && b != [] && a[0] == b[0] {
      NewerAsymmetric(a[1..], b[1..]);
    }
  }

  lemma {:induction false} NewerTransitive(a: seq<int>, b: seq<int>, c: seq<int>)
    requires Newer(a, b) && Newer(b, c)
    ensures Newer(a, c)
  {
    if a != [] && b != [] && c != [] && a[0] == b[0] == c[0] {
      NewerTransitive(a[1..], b[1..], c[1..]);
    }
  }

  /** Any two distinct versions are ordered one way or the other. */
  lemma {:induction false} NewerTotal(a: seq<int>, b: seq<int>)
    requires a != b
    ensures Newer(a, b) || Newer(b, a)
  {
    if a != [] && b != [] && a[0] == b[0] {
      assert a == [a[0]] + a[1..] && b == [b[0]] + b[1..];
      NewerTotal(a[1..], b[1..]);
    }
  }

  /** A version string is never newer than itself. */
  lemma SameVersionNotNewer(v: string)
    ensures !IsNewer(v, v)
  {
    var p := ParseParts(Split(v, Dot));
    if p.Some? {
      NewerIrreflexive(p.value);
    }
  }

  /** Two version strings are never each newer than the other. */
  lemma IsNewerAsymmetric(x: string, y: string)
    ensures !(IsNewer(x, y) && IsNewer(y, x))
  {
    var p, q := ParseParts(Split(x, Dot)), ParseParts(Split(y, Dot));
    if p.Some? && q.Some? {
      NewerAsymmetric(p.value, q.value);
    }
  }

  /** A component that does not parse makes the answer false. */
  lemma UnparsableIsNotNewer(latest: string, current: string, i: nat)
    requires (i < |Split(latest, Dot)| && ParseInt32(Split(latest, Dot)[i]).None?)
          || (i < |Split(current, Dot)| && ParseInt32(Split(current, Dot)[i]).None?)
    ensures !IsNewer(latest, current)
  {
    if i < |Split(latest, Dot)| && ParseInt32(Split(latest, Dot)[i]).None? {
      UnparsablePart(Split(latest, Dot), i);
    } else {
      UnparsablePart(Split(current, Dot), i);
    }
  }

  lemma UnparsablePart(parts: seq<string>, i: nat)
    requires i < |parts| && ParseInt32(parts[i]).None?
    ensures ParseParts(parts).None?
  {
    var opts := seq(|parts|, k requires 0 <= k < |parts| => ParseInt32(parts[k]));
    assert opts[i].None?;
    assert !AllValues(opts).Some?;
  }

  // ----- Rendered versions -----

  /** The dotted form of a list of non-negative components. */
  function Render(v: seq<nat>): string
    requires |v| >= 1
  {
    Join(ShowAll(v), Dot)
  }

  function ShowAll(v: seq<nat>): (parts: seq<string>)
    ensures |parts| == |v|
    ensures forall i :: 0 <= i < |v| ==> parts[i] == Show(v[i])
  {
    if v == [] then [] else [Show(v[0])] + ShowAll(v[1..])
  }

  /** On rendered versions the string comparison is exactly the numeric one:
      splitting and parsing recover every component. */
  lemma RenderedCompare(a: seq<nat>, b: seq<nat>)
    requires |a| >= 1 && |b| >= 1
    requires forall i :: 0 <= i < |a| ==> a[i] <= Int32Max
    requires forall i :: 0 <= i < |b| ==> b[i] <= Int32Max
    ensures IsNewer(Render(a), Render(b)) == Newer(a, b)
  {
    ParseRendered(a);
    ParseRendered(b);
  }

  lemma ParseRendered(a: seq<nat>)
    requires |a| >= 1
    requires forall i :: 0 <= i < |a| ==> a[i] <= Int32Max
    ensures ParseParts(Split(Render(a), Dot)) == Some(a)
  {
    var parts := ShowAll(a);
    forall i | 0 <= i < |parts|
      ensures Dot !in parts[i]
    {
      DigitsHaveNoDot(parts[i]);
    }
    SplitJoin(parts, Dot);
    assert Split(Render(a), Dot) == parts;
    ParseShowAll(a);
  }

  /** Every shown component parses back to itself. */
  lemma ParseShowAll(a: seq<nat>)
    requires forall i :: 0 <= i < |a| ==> a[i] <= Int32Max
    ensures ParseParts(ShowAll(a)) == Some(a)
  {
    var parts := ShowAll(a);
    var opts := seq(|parts|, k requires 0 <= k < |parts| => ParseInt32(parts[k]));
    forall i | 0 <= i < |a|
      ensures opts[i] == Some(a[i])
    {
      ParseShow(a[i]);
    }
    var r := AllValues(opts).value;
    assert r == a;
  }

  /** "1.0" is newer than "1": the extra component wins even when it is 0. */
  lemma TrailingZeroIsNewer()
    ensures IsNewer(Render([1, 0]), Render([1]))
  {
    RenderedCompare([1, 0], [1]);
  }

  // ----- The tag and the service state -----

  /** How many `v` characters the tag starts with. */
  function LeadingVs(tag: string): (n: nat)
    ensures n <= |tag|
    ensures forall i :: 0 <= i < n ==> tag[i] == 'v'
    ensures n == |tag| || tag[n] != 'v'
  {
    if tag != [] && tag[0] == 'v' then 1 + LeadingVs(tag[1..]) else 0
  }

  /** `tag.TrimStart('v')`: every leading `v` removed. */
  function TrimLeadingV(tag: string): (r: string)
    ensures |r| <= |tag| && r == tag[|tag| - |r|..]
    ensures forall i :: 0 <= i < |tag| - |r| ==> tag[i] == 'v'
    ensures r == [] || r[0] != 'v'
  {
    tag[LeadingVs(tag)..]
  }

  /** What the request and the JSON parsing produced: an exception, or the
      `tag_name` and `html_url` strings (each possibly JSON null). */
  datatype Fetch = Failed | Fetched(tagName: Option<string>, htmlUrl: Option<string>)

  /** The trimmed tag and whether it is newer than the running version. */
  method CompareRelease(tag: string, currentVersion: string) returns (version: string, newer: bool)
    ensures version == TrimLeadingV(tag) && newer == IsNewer(version, currentVersion)
  {
    version := TrimLeadingV(tag);
    newer := IsNewerVersion(version, currentVersion);
  }

  class UpdateService {
    var latestVersion: Option<string>
    var releaseUrl: Option<string>
    var updateAvailable: bool

    constructor ()
      ensures latestVersion == None && releaseUrl == None && !updateAvailable
    {
      latestVersion := None;
      releaseUrl := None;
      updateAvailable := false;
    }

    /** `CheckForUpdatesAsync`: a failure clears `UpdateAvailable` only; a
        reply with both strings stores the trimmed tag and the URL and
        compares; a reply with a null leaves everything as it was. */
    method CheckForUpdates(fetch: Fetch, currentVersion: string)
      modifies this
      ensures fetch.Failed? ==>
        !updateAvailable && latestVersion == old(latestVersion) && releaseUrl == old(releaseUrl)
      ensures fetch.Fetched? && fetch.tagName.Some? && fetch.htmlUrl.Some? ==>
        && latestVersion == Some(TrimLeadingV(fetch.tagName.value))
        && releaseUrl == Some(fetch.htmlUrl.value)
        && updateAvailable == IsNewer(TrimLeadingV(fetch.tagName.value), currentVersion)
      ensures fetch.Fetched? && (fetch.tagName.None? || fetch.htmlUrl.None?) ==>
        latestVersion == old(latestVersion) && releaseUrl == old(releaseUrl)
        && updateAvailable == old(updateAvailable)
    {
      if fetch.Failed? {
        updateAvailable := false;
        return;
      }
      if fetch.tagName.None? || fetch.htmlUrl.None? {
        return;
      }
      var version, newer := CompareRelease(fetch.tagName.value, currentVersion);
      latestVersion := Some(version);
      releaseUrl := fetch.htmlUrl;
      updateAvailable := newer;
    }
  }
}
