/** The string helpers of the main window: the `;`-terminated list format
    of the configuration file, the Rite Aid search-location lines, and the
    CVS location check-list kept in step with the locations CVS reports. */
module MainFrame {
  import opened StdText

  const ConfigSeparator := ';'
  const SpaceCode := "%20"

  // ---------------------------------------------------------------------------
  // The configuration list format

  /** Every element followed by `;`, in order. */
  function ConfigString(a: seq<string>): string
  {
    if |a| == 0 then "" else a[0] + [ConfigSeparator] + ConfigString(a[1..])
  }

  /** Appends each element and a `;` to the string built so far. */
  method ArrayToConfigString(a: seq<string>) returns (s: string)
    ensures s == ConfigString(a)
    ensures |a| == 0 ==> s == ""
  {
    s := "";
    var i := 0;
    while i < |a|
      invariant 0 <= i <= |a|
      invariant s + ConfigString(a[i..]) == ConfigString(a)
    {
      assert a[i..][0] == a[i] && a[i..][1..] == a[i + 1..];
      var piece, tail := a[i] + [ConfigSeparator], ConfigString(a[i + 1..]);
      assert ConfigString(a[i..]) == piece + tail;
      assert s + (piece + tail) == (s + piece) + tail;
      assert s + a[i] + [ConfigSeparator] == s + piece;
      s := s + a[i] + [ConfigSeparator];
      i := i + 1;
    }
    assert a[i..] == [];
    assert s + "" == s;
  }

  /** The `std::getline` loop: the pieces of `s` between separators, with no
      piece after a final separator. */
  method ReadPieces(s: string, sep: char) returns (pieces: seq<string>)
    ensures pieces == Split(s, sep)
  {
    pieces := [];
    var pos := 0;
    assert s[0..] == s;
    while pos < |s|
      invariant 0 <= pos <= |s|
      invariant pieces + Split(s[pos..], sep) == Split(s, sep)
      decreases |s| - pos
    {
      var end := ScanToSeparator(s, pos, sep);
      var next := if end < |s| then end + 1 else |s|;
      ReadPiecesStep(s, pos, end, next, sep, pieces);
      pieces := pieces + [s[pos..end]];
      pos := next;
    }
    assert s[pos..] == [];
    assert pieces + [] == pieces;
  }

  /** One iteration of the `std::getline` loop keeps the pieces read so far
      followed by the pieces still to come equal to all pieces. */
  lemma ReadPiecesStep(s: string, pos: nat, end: nat, next: nat, sep: char, pieces: seq<string>)
    requires pos < |s| && pos <= end <= |s|
    requires forall k :: pos <= k < end ==> s[k] != sep
    requires end < |s| ==> s[end] == sep
    requires next == if end < |s| then end + 1 else |s|
    ensures pieces + Split(s[pos..], sep) == (pieces + [s[pos..end]]) + Split(s[next..], sep)
  {
    SplitAt(s, pos, end, sep);
    var piece := s[pos..end];
    if end == |s| {
      assert s[next..] == [];
    }
    assert Split(s[pos..], sep) == [piece] + Split(s[next..], sep);
    assert pieces + ([piece] + Split(s[next..], sep)) == (pieces + [piece]) + Split(s[next..], sep);
  }

  /** The end of the piece that starts at `pos`: the next separator, or the
      end of the text. */
  method ScanToSeparator(s: string, pos: nat, sep: char) returns (end: nat)
    requires pos <= |s|
    ensures pos <= end <= |s|
    ensures forall k :: pos <= k < end ==> s[k] != sep
    ensures end < |s| ==> s[end] == sep
  {
    end := pos;
    while end < |s| && s[end] != sep
      invariant pos <= end <= |s|
      invariant forall k :: pos <= k < end ==> s[k] != sep
    {
      end := end + 1;
    }
  }

  method ConfigStringToArray(s: string) returns (a: seq<string>)
    ensures a == Split(s, ConfigSeparator)
    ensures |s| == 0 ==> a == []
    ensures forall i :: 0 <= i < |a| ==> ConfigSeparator !in a[i]
  {
    a := ReadPieces(s, ConfigSeparator);
    forall i | 0 <= i < |a|
      ensures ConfigSeparator !in a[i]
    {
      SplitPiecesLackSeparator(s, ConfigSeparator, i);
    }
  }

  /** Writing a list and reading it back gives the list, empty elements
      included, as long as no element holds a `;`. */
  lemma {:induction false} ConfigRoundTrip(a: seq<string>)
    requires forall i :: 0 <= i < |a| ==> ConfigSeparator !in a[i]
    ensures Split(ConfigString(a), ConfigSeparator) == a
  {
    if |a| > 0 {
      SplitAfterPiece(a[0], ConfigSeparator, ConfigString(a[1..]));
      ConfigRoundTrip(a[1..]);
    }
  }

  /** The configuration string of a list starting with `piece`. */
  lemma ConfigStringCons(piece: string, rest: seq<string>)
    ensures ConfigString([piece] + rest) == piece + [ConfigSeparator] + ConfigString(rest)
  {
    assert ([piece] + rest)[1..] == rest;
  }

  /** Reading a stored string and writing the list back gives the string,
      whenever it is empty or ends with `;` (as every written string does). */
  lemma {:induction false} ConfigStringRoundTrip(s: string)
    requires |s| == 0 || s[|s| - 1] == ConfigSeparator
    ensures ConfigString(Split(s, ConfigSeparator)) == s
    decreases |s|
  {
    if |s| > 0 {
      var f := FirstIndex(s, ConfigSeparator);
      assert f < |s|;
      var piece, rest := s[..f], s[f + 1..];
      assert |rest| == 0 || rest[|rest| - 1] == ConfigSeparator;
      assert ConfigSeparator !in piece by {
        assert forall k :: 0 <= k < |piece| ==> piece[k] == s[k];
      }
      assert s == piece + [ConfigSeparator] + rest;
      SplitAfterPiece(piece, ConfigSeparator, rest);
      ConfigStringRoundTrip(rest);
      ConfigStringCons(piece, Split(rest, ConfigSeparator));
    }
  }

  // ---------------------------------------------------------------------------
  // Rite Aid search locations

  /** Each space written as `%20`; every other character kept. */
  function EncodeSpaces(s: string): (r: string)
    ensures forall i :: 0 <= i < |r| ==> r[i] != ' '
    ensures (forall i :: 0 <= i < |s| ==> s[i] != ' ') ==> r == s
  {
    if |s| == 0 then ""
    else (if s[0] == ' ' then SpaceCode else [s[0]]) + EncodeSpaces(s[1..])
  }

  /** Each `%20` read back as a space. */
  function DecodeSpaces(s: string): string
  {
    if |s| == 0 then ""
    else if |s| >= 3 && s[..3] == SpaceCode then " " + DecodeSpaces(s[3..])
    else [s[0]] + DecodeSpaces(s[1..])
  }

  /** Decoding an encoded line gives the line back when it holds no `%`. */
  lemma {:induction false} EncodeSpacesRoundTrip(s: string)
    requires '%' !in s
    ensures DecodeSpaces(EncodeSpaces(s)) == s
  {
    if |s| > 0 {
      var rest := s[1..];
      var encodedRest := EncodeSpaces(rest);
      var e := EncodeSpaces(s);
      assert '%' !in rest by {
        assert forall c :: c in rest ==> c in s;
      }
      EncodeSpacesRoundTrip(rest);
      if s[0] == ' ' {
        assert e == SpaceCode + encodedRest;
        assert e[..3] == SpaceCode && e[3..] == encodedRest;
        assert DecodeSpaces(e) == " " + rest;
      } else {
        assert e == [s[0]] + encodedRest;
        assert e[0] != '%';
        assert !(|e| >= 3 && e[..3] == SpaceCode) by {
          if |e| >= 3 {
            assert e[..3][0] == e[0];
          }
        }
        assert e[1..] == encodedRest;
        assert DecodeSpaces(e) == [s[0]] + rest;
      }
      assert s == [s[0]] + rest;
    }
  }

  /** One entry per line of the text box, with spaces encoded when the
      entries go into a URL. */
  method GetRiteAidLocations(text: string, encoded: bool) returns (locations: seq<string>)
    ensures |locations| == |Split(text, '\n')|
    ensures forall i :: 0 <= i < |locations| ==>
      locations[i] == if encoded then EncodeSpaces(Split(text, '\n')[i]) else Split(text, '\n')[i]
  {
    var lines := ReadPieces(text, '\n');
    locations := [];
    var i := 0;
    while i < |lines|
      invariant 0 <= i <= |lines|
      invariant |locations| == i
      invariant forall k :: 0 <= k < i ==> locations[k] == if encoded then EncodeSpaces(lines[k]) else lines[k]
    {
      var line := lines[i];
      if encoded {
        line := EncodeSpaces(line);
      }
      locations := locations + [line];
      i := i + 1;
    }
  }

  /** Every entry is a single line; encoded entries hold no space and decode
      back to their line when it holds no `%`. */
  lemma EncodedLocationLines(text: string, i: nat)
    requires i < |Split(text, '\n')|
    ensures '\n' !in Split(text, '\n')[i]
    ensures ' ' !in EncodeSpaces(Split(text, '\n')[i])
    ensures '%' !in text ==> DecodeSpaces(EncodeSpaces(Split(text, '\n')[i])) == Split(text, '\n')[i]
  {
    SplitPiecesLackSeparator(text, '\n', i);
    var line := Split(text, '\n')[i];
    if '%' !in text {
      SplitPiecesAreSubstrings(text, '\n', i);
      assert '%' !in line;
      EncodeSpacesRoundTrip(line);
    }
  }

  /** Every piece is a stretch of the text. */
  lemma {:induction false} SplitPiecesAreSubstrings(s: string, sep: char, i: nat)
    requires i < |Split(s, sep)|
    ensures forall c :: c in Split(s, sep)[i] ==> c in s
    decreases |s|
  {
    var f := FirstIndex(s, sep);
    if f < |s| {
      if i > 0 {
        SplitPiecesAreSubstrings(s[f + 1..], sep, i - 1);
        assert forall c :: c in s[f + 1..] ==> c in s;
      } else {
        assert forall c :: c in s[..f] ==> c in s;
      }
    }
  }

  // ---------------------------------------------------------------------------
  // The CVS location check-list

  datatype CheckItem = CheckItem(caption: string, checked: bool)

  function Labels(items: seq<CheckItem>): (labels: seq<string>)
    ensures |labels| == |items|
  {
    seq(|items|, i requires 0 <= i < |items| => items[i].caption)
  }

  /** Item `i` is left unchecked: its location is excluded and no earlier
      item has the same location. */
  predicate ExcludedAt(locations: seq<string>, exclude: seq<string>, i: nat)
    requires i < |locations|
  {
    locations[i] in exclude && forall j :: 0 <= j < i ==> locations[j] != locations[i]
  }

  /** The check-list after a change: the new locations in order, each checked
      unless it is the first item of an excluded location. */
  function SyncedCheckList(locations: seq<string>, exclude: seq<string>): seq<CheckItem>
  {
    seq(|locations|, i requires 0 <= i < |locations| => CheckItem(locations[i], !ExcludedAt(locations, exclude, i)))
  }

  /** Keeps the check-list when its labels already are the locations;
      otherwise refills it, checks every item, and then unchecks, for each
      excluded location, the first item that carries it. */
  method UpdateCVSLocations(items: seq<CheckItem>, locations: seq<string>, exclude: seq<string>)
    returns (r: seq<CheckItem>)
    ensures Labels(items) == locations ==> r == items
    ensures Labels(items) != locations ==> r == SyncedCheckList(locations, exclude)
  {
    if Labels(items) == locations {
      return items;
    }
    r := [];
    var i := 0;
    while i < |locations|
      invariant 0 <= i <= |locations|
      invariant r == seq(i, k requires 0 <= k < i => CheckItem(locations[k], true))
    {
      r := r + [CheckItem(locations[i], true)];
      i := i + 1;
    }
    var e := 0;
    while e < |exclude|
      invariant 0 <= e <= |exclude|
      invariant |r| == |locations|
      invariant forall k :: 0 <= k < |r| ==> r[k] == CheckItem(locations[k], !ExcludedAt(locations, exclude[..e], k))
    {
      var k := 0;
      while k < |r|
        invariant 0 <= k <= |r|
        invariant forall m :: 0 <= m < k ==> locations[m] != exclude[e]
      {
        if r[k].caption == exclude[e] {
          r := r[k := r[k].(checked := false)];
          break;
        }
        k := k + 1;
      }
      assert exclude[..e + 1] == exclude[..e] + [exclude[e]];
      e := e + 1;
    }
    assert exclude[..e] == exclude;
  }

  /** The refilled list carries the new locations, so the next update with
      the same locations keeps it; an excluded location that appears is
      unchecked exactly at its first item; every other item is checked. */
  lemma SyncedCheckListUnchecksFirstOnly(locations: seq<string>, exclude: seq<string>, i: nat)
    requires i < |locations|
    ensures Labels(SyncedCheckList(locations, exclude)) == locations
    ensures !SyncedCheckList(locations, exclude)[i].checked <==>
      locations[i] in exclude && forall j :: 0 <= j < i ==> locations[j] != locations[i]
    ensures locations[i] !in exclude ==> SyncedCheckList(locations, exclude)[i].checked
  {
  }

  /** Every excluded location that appears in the list ends up unchecked. */
  lemma {:induction false} ExcludedLocationUnchecked(locations: seq<string>, exclude: seq<string>, loc: string)
    requires loc in exclude && loc in locations
    ensures exists i :: 0 <= i < |locations| && SyncedCheckList(locations, exclude)[i] == CheckItem(loc, false)
  {
    var i :| 0 <= i < |locations| && locations[i] == loc;
    var first := FirstOf(locations, loc, i);
    assert SyncedCheckList(locations, exclude)[first] == CheckItem(loc, false);
  }

  /** The first index holding `loc`, at or before `i`. */
  function FirstOf(locations: seq<string>, loc: string, i: nat): (first: nat)
    requires i < |locations| && locations[i] == loc
    ensures first <= i && locations[first] == loc
    ensures forall j :: 0 <= j < first ==> locations[j] != loc
  {
    if forall j :: 0 <= j < i ==> locations[j] != loc then i
    else
      var j :| 0 <= j < i && locations[j] == loc;
      FirstOf(locations, loc, j)
  }
}
