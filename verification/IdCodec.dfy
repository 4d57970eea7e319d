/** backend/lexmind/metadata/repositories.py: id lists stored as comma-separated strings. */
module IdCodec {
  /** The characters Python's `str.strip` removes. */
  predicate IsSpace(c: char) {
    || '\U{0009}' <= c <= '\U{000D}'
    || '\U{001C}' <= c <= '\U{0020}'
    || c == '\U{0085}' || c == '\U{00A0}' || c == '\U{1680}'
    || '\U{2000}' <= c <= '\U{200A}'
    || c == '\U{2028}' || c == '\U{2029}' || c == '\U{202F}' || c == '\U{205F}' || c == '\U{3000}'
  }

  const SPACES := "\t\n\U{000B}\U{000C}\r\U{001C}\U{001D}\U{001E}\U{001F} \U{0085}\U{00A0}\U{1680}\U{2000}\U{2001}\U{2002}"
    + "\U{2003}\U{2004}\U{2005}\U{2006}\U{2007}\U{2008}\U{2009}\U{200A}\U{2028}\U{2029}\U{202F}\U{205F}\U{3000}"

  lemma SpacesListed(c: char)
    ensures IsSpace(c) <==> c in SPACES
  {
  }

  function LStrip(s: string): string {
    if s != "" && IsSpace(s[0]) then LStrip(s[1..]) else s
  }

  function RStrip(s: string): string {
    if s != "" && IsSpace(s[|s| - 1]) then RStrip(s[..|s| - 1]) else s
  }

  function Strip(s: string): string {
    RStrip(LStrip(s))
  }

  predicate IsTrimmed(s: string) {
    s != "" ==> !IsSpace(s[0]) && !IsSpace(s[|s| - 1])
  }

  /** The part before the first comma. */
  function Upto(s: string): (r: string)
    ensures |r| <= |s| && ',' !in r && r == s[..|r|]
    ensures |r| < |s| ==> s[|r|] == ','
  {
    if s == "" || s[0] == ',' then "" else [s[0]] + Upto(s[1..])
  }

  /** Splitting at every comma; there is always one part more than there are commas. */
  function Split(s: string): (parts: seq<string>)
    ensures parts != []
    ensures forall p :: p in parts ==> ',' !in p
    decreases |s|
  {
    var first := Upto(s);
    if |first| == |s| then [first] else [first] + Split(s[|first| + 1..])
  }

  function JoinIds(ids: seq<string>): string {
    if ids == [] then ""
    else if |ids| == 1 then ids[0]
    else ids[0] + "," + JoinIds(ids[1..])
  }

  /** The stripped parts that are not empty. */
  function Cleaned(parts: seq<string>): seq<string> {
    if parts == [] then []
    else (if Strip(parts[0]) == "" then [] else [Strip(parts[0])]) + Cleaned(parts[1..])
  }

  function ParseIds(raw: string): seq<string> {
    if raw == "" || Strip(raw) == "" then [] else Cleaned(Split(raw))
  }

  /** An id that survives storage. */
  predicate IsStorable(id: string) {
    id != "" && ',' !in id && IsTrimmed(id)
  }

  /** Stripping */

  lemma {:induction false} LStripSuffix(s: string)
    ensures |LStrip(s)| <= |s| && LStrip(s) == s[|s| - |LStrip(s)|..]
    ensures LStrip(s) != "" ==> !IsSpace(LStrip(s)[0])
    ensures forall i :: 0 <= i < |s| - |LStrip(s)| ==> IsSpace(s[i])
  {
    hide IsSpace;
    if s != "" && IsSpace(s[0]) {
      LStripSuffix(s[1..]);
    }
  }

  lemma {:induction false} RStripPrefix(s: string)
    ensures |RStrip(s)| <= |s| && RStrip(s) == s[..|RStrip(s)|]
    ensures RStrip(s) != "" ==> !IsSpace(RStrip(s)[|RStrip(s)| - 1])
    ensures forall i :: |RStrip(s)| <= i < |s| ==> IsSpace(s[i])
  {
    hide IsSpace;
    if s != "" && IsSpace(s[|s| - 1]) {
      RStripPrefix(s[..|s| - 1]);
    }
  }

  lemma StripTrims(s: string)
    ensures IsTrimmed(Strip(s)) && forall c :: c in Strip(s) ==> c in s
  {
    hide IsSpace, LStrip, RStrip;
    LStripSuffix(s);
    RStripPrefix(LStrip(s));
  }

  lemma StripOfTrimmed(s: string)
    requires IsTrimmed(s)
    ensures Strip(s) == s
  {
    hide IsSpace;
  }

  lemma StripNotEmpty(s: string)
    requires s != "" && !IsSpace(s[0])
    ensures Strip(s) != ""
  {
    hide IsSpace;
    RStripPrefix(s);
  }

  /** Splitting and joining */

  lemma {:induction false} UptoFirst(a: string, t: string)
    requires ',' !in a
    ensures Upto(a) == a && Upto(a + "," + t) == a
  {
    if a == "" {
      assert (a + "," + t)[0] == ',';
    } else {
      UptoFirst(a[1..], t);
      assert (a + "," + t)[1..] == a[1..] + "," + t;
    }
  }

  lemma SplitFirst(first: string, t: string)
    requires ',' !in first
    ensures Split(first) == [first] && Split(first + "," + t) == [first] + Split(t)
  {
    UptoFirst(first, t);
    assert (first + "," + t)[|first| + 1..] == t;
  }

  lemma {:induction false} SplitOfJoin(ids: seq<string>)
    requires ids != [] && forall id :: id in ids ==> ',' !in id
    ensures Split(JoinIds(ids)) == ids
  {
    hide Split;
    assert ids == [ids[0]] + ids[1..];
    SplitFirst(ids[0], JoinIds(ids[1..]));
    if |ids| > 1 {
      SplitOfJoin(ids[1..]);
    }
  }

  lemma SplitStep(s: string)
    ensures
      var first := Upto(s);
      Split(s) == if |first| == |s| then [first] else [first] + Split(s[|first| + 1..])
  {
  }

  lemma JoinFirst(first: string, rest: seq<string>)
    ensures JoinIds([first] + rest) == if rest == [] then first else first + "," + JoinIds(rest)
  {
    assert ([first] + rest)[1..] == rest;
  }

  lemma {:induction false} JoinOfSplit(s: string)
    ensures JoinIds(Split(s)) == s
    decreases |s|
  {
    hide Split, JoinIds, Upto;
    var first := Upto(s);
    SplitStep(s);
    if |first| == |s| {
      JoinFirst(first, []);
      assert [first] + [] == [first];
    } else {
      var rest := s[|first| + 1..];
      JoinOfSplit(rest);
      JoinFirst(first, Split(rest));
      assert s == first + "," + rest;
    }
  }

  /** Parsing */

  lemma {:induction false} CleanedIsStorable(parts: seq<string>)
    requires forall p :: p in parts ==> ',' !in p
    ensures forall id :: id in Cleaned(parts) ==> IsStorable(id)
  {
    hide IsSpace, Strip, IsTrimmed;
    if parts != [] {
      assert parts == [parts[0]] + parts[1..];
      CleanedIsStorable(parts[1..]);
      StripTrims(parts[0]);
    }
  }

  lemma {:induction false} CleanedKeeps(parts: seq<string>)
    requires forall p :: p in parts ==> IsStorable(p)
    ensures Cleaned(parts) == parts
  {
    hide IsSpace, Strip, IsTrimmed;
    if parts != [] {
      assert parts == [parts[0]] + parts[1..];
      assert IsStorable(parts[0]);
      StripOfTrimmed(parts[0]);
      CleanedKeeps(parts[1..]);
    }
  }

  lemma ParsedIsStorable(raw: string)
    ensures forall id :: id in ParseIds(raw) ==> IsStorable(id)
  {
    hide Strip, IsStorable;
    CleanedIsStorable(Split(raw));
  }

  lemma JoinStarts(ids: seq<string>)
    requires ids != [] && IsStorable(ids[0])
    ensures JoinIds(ids) != "" && Strip(JoinIds(ids)) != ""
  {
    hide IsSpace, Strip;
    assert JoinIds(ids)[0] == ids[0][0];
    StripNotEmpty(JoinIds(ids));
  }

  /** Exactly the lists of non-empty, comma-free, trimmed ids come back as they were stored. */
  lemma RoundTripIff(ids: seq<string>)
    ensures ParseIds(JoinIds(ids)) == ids <==> forall id :: id in ids ==> IsStorable(id)
  {
    hide Strip, Split, IsTrimmed;
    ParsedIsStorable(JoinIds(ids));
    if ids != [] && forall id :: id in ids ==> IsStorable(id) {
      JoinStarts(ids);
      SplitOfJoin(ids);
      CleanedKeeps(ids);
    }
  }

  /** For every string, even a malformed one, storing what was parsed and parsing again changes nothing. */
  lemma ParseStable(raw: string)
    ensures ParseIds(JoinIds(ParseIds(raw))) == ParseIds(raw)
  {
    hide IsStorable, ParseIds, JoinIds;
    ParsedIsStorable(raw);
    RoundTripIff(ParseIds(raw));
  }

  /** A stored string is the one that would be written back exactly when it is empty or all its parts are storable. */
  lemma CanonicalIff(raw: string)
    ensures JoinIds(ParseIds(raw)) == raw <==> raw == "" || forall p :: p in Split(raw) ==> IsStorable(p)
  {
    hide Strip, Split, IsTrimmed;
    JoinOfSplit(raw);
    ParsedIsStorable(raw);
    if JoinIds(ParseIds(raw)) == raw && raw != "" {
      SplitOfJoin(ParseIds(raw));
    }
    if raw != "" && forall p :: p in Split(raw) ==> IsStorable(p) {
      CleanedKeeps(Split(raw));
      JoinStarts(Split(raw));
    }
  }

  /** Padding */

  ghost predicate AllSpaces(s: string) {
    forall i :: 0 <= i < |s| ==> IsSpace(s[i])
  }

  /** The part is the id with any white space around it. */
  ghost predicate Pads(part: string, id: string) {
    exists lead, trail :: AllSpaces(lead) && AllSpaces(trail) && part == lead + id + trail
  }

  function NonEmpty(ids: seq<string>): seq<string> {
    if ids == [] then [] else (if ids[0] == "" then [] else [ids[0]]) + NonEmpty(ids[1..])
  }

  lemma {:induction false} LStripPadded(lead: string, s: string)
    requires AllSpaces(lead)
    ensures LStrip(lead + s) == LStrip(s)
  {
    hide IsSpace;
    if lead == "" {
      assert lead + s == s;
    } else {
      assert (lead + s)[1..] == lead[1..] + s;
      LStripPadded(lead[1..], s);
    }
  }

  lemma {:induction false} RStripPadded(s: string, trail: string)
    requires AllSpaces(trail)
    ensures RStrip(s + trail) == RStrip(s)
    decreases |trail|
  {
    hide IsSpace;
    if trail == "" {
      assert s + trail == s;
    } else {
      assert (s + trail)[..|s + trail| - 1] == s + trail[..|trail| - 1];
      RStripPadded(s, trail[..|trail| - 1]);
    }
  }

  lemma StripPadded(part: string, id: string)
    requires Pads(part, id) && IsTrimmed(id)
    ensures Strip(part) == id
  {
    hide IsSpace;
    var lead, trail :| AllSpaces(lead) && AllSpaces(trail) && part == lead + id + trail;
    assert part == lead + (id + trail);
    LStripPadded(lead, id + trail);
    if id == "" {
      assert id + trail == trail + "";
      LStripPadded(trail, "");
    } else {
      assert (id + trail)[0] == id[0];
      RStripPadded(id, trail);
    }
  }

  lemma {:induction false} NoCommaSplit(s: string)
    requires ',' !in s
    ensures Split(s) == [s]
  {
    UptoFirst(s, "");
  }

  lemma AllSpacesHasNoComma(s: string)
    requires Strip(s) == ""
    ensures ',' !in s
  {
    hide IsSpace, LStrip, RStrip;
    LStripSuffix(s);
    RStripPrefix(LStrip(s));
    assert !IsSpace(',') by { SpacesListed(','); }
  }

  lemma ParseIsCleaned(raw: string)
    ensures ParseIds(raw) == Cleaned(Split(raw))
  {
    hide Strip, Split;
    if Strip(raw) == "" {
      AllSpacesHasNoComma(raw);
      NoCommaSplit(raw);
      assert Cleaned([raw]) == [];
    } else if raw == "" {
      StripOfTrimmed("");
      assert false;
    }
  }

  lemma {:induction false} CleanedPadded(parts: seq<string>, ids: seq<string>)
    requires |parts| == |ids| && forall i :: 0 <= i < |ids| ==> Pads(parts[i], ids[i]) && IsTrimmed(ids[i])
    ensures Cleaned(parts) == NonEmpty(ids)
  {
    hide Strip, Pads, IsTrimmed;
    if ids != [] {
      StripPadded(parts[0], ids[0]);
      CleanedPadded(parts[1..], ids[1..]);
    }
  }

  /** White space around ids and empty entries are ignored when a stored string is read, and nothing else is. */
  lemma PaddedIds(parts: seq<string>, ids: seq<string>)
    requires parts != [] && |parts| == |ids| && forall i :: 0 <= i < |ids| ==> ',' !in parts[i]
    requires forall i :: 0 <= i < |ids| ==> Pads(parts[i], ids[i]) && IsTrimmed(ids[i])
    ensures ParseIds(JoinIds(parts)) == NonEmpty(ids)
  {
    hide Strip, Pads, IsTrimmed, Split, ParseIds;
    ParseIsCleaned(JoinIds(parts));
    SplitOfJoin(parts);
    CleanedPadded(parts, ids);
  }
}
