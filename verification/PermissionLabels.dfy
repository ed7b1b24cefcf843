/**
 * The label codec that decides which EC2 rules the controller owns: labels are printed into
 * a rule's description and parsed back from it (pkg/networking/security_group_info.go).
 */
module PermissionLabels {
  import opened Text

  const RAW_DESCRIPTION: string := "raw/description"

  type Labels = map<string, string>

  // ---------------------------------------------------------------- parser

  /** A character of the class [^\s,=]. */
  predicate TokenChar(c: char) {
    c != ' ' && c != '\t' && c != '\n' && c != '\r' && c != 0xC as char && c != ',' && c != '='
  }

  predicate Token(s: string) { s != "" && forall c <- s :: TokenChar(c) }

  /** Length of the longest run of token characters at the head of s. */
  function Run(s: string): (n: nat)
    ensures n <= |s|
    ensures forall i :: 0 <= i < n ==> TokenChar(s[i])
    ensures n < |s| ==> !TokenChar(s[n])
  {
    if s == "" || !TokenChar(s[0]) then 0 else 1 + Run(s[1..])
  }

  datatype Pair = Pair(key: string, value: string)

  datatype Match = NoMatch | Match(pair: Pair, length: nat)

  /**
   * The pattern ([^\s,=]+)=([^\s,=]+)(?:,|$) anchored at the head of s. Neither run can stop
   * early, because what must follow it is not a token character.
   */
  function MatchHead(s: string): (m: Match)
    ensures m.Match? ==> 0 < m.length <= |s| && Token(m.pair.key) && Token(m.pair.value)
  {
    var k := Run(s);
    if k == 0 || k == |s| || s[k] != '=' then NoMatch
    else
      var v := Run(s[k + 1..]);
      var end := k + 1 + v;
      if v == 0 || (end < |s| && s[end] != ',') then NoMatch
      else Match(Pair(s[..k], s[k + 1..end]), if end < |s| then end + 1 else end)
  }

  /** All successive leftmost matches, as FindAllStringSubmatch reports them. */
  function FindAll(s: string): (ps: seq<Pair>)
    ensures forall p <- ps :: Token(p.key) && Token(p.value)
    decreases |s|
  {
    if s == "" then []
    else
      var m := MatchHead(s);
      if m.Match? then [m.pair] + FindAll(s[m.length..]) else FindAll(s[1..])
  }

  /** The pattern matches s from i to j: a pair of tokens, then a comma or the end of s. */
  ghost predicate MatchesAt(s: string, i: nat, j: nat, p: Pair) {
    && i <= j <= |s| && Token(p.key) && Token(p.value)
    && (s[i..j] == p.key + "=" + p.value + "," || (j == |s| && s[i..j] == p.key + "=" + p.value))
  }

  /** Successive leftmost matches that do not overlap. */
  ghost predicate LeftmostMatches(s: string, ps: seq<Pair>)
    decreases |ps|
  {
    if ps == [] then forall i: nat, j: nat, p :: !MatchesAt(s, i, j, p)
    else exists i: nat, j: nat ::
      && MatchesAt(s, i, j, ps[0]) && (forall k: nat, l: nat, p | k < i :: !MatchesAt(s, k, l, p))
      && LeftmostMatches(s[j..], ps[1..])
  }

  lemma ParsedMatches(s: string, j: nat, p: Pair)
    requires MatchHead(s) == Match(p, j)
    ensures MatchesAt(s, 0, j, p)
  {
    hide Token;
    var k := |p.key|;
    var end := k + 1 + |p.value|;
    assert s[..k] == p.key && s[k] == '=' && s[k + 1..end] == p.value;
    assert s[..end] == p.key + "=" + p.value;
    if end < |s| { assert s[..end + 1] == s[..end] + ","; }
  }

  lemma MatchIsParsed(s: string, j: nat, p: Pair)
    requires MatchesAt(s, 0, j, p)
    ensures MatchHead(s) == Match(p, j)
  {
    var k, v := |p.key|, |p.value|;
    var pair := p.key + "=" + p.value;
    hide MatchHead;
    assert pair[..k] == p.key && pair[k] == '=' && pair[k + 1..] == p.value;
    assert s[0..j][..|pair|] == pair && s[..|pair|] == s[0..j][..|pair|];
    assert s[..k] == s[..|pair|][..k] && s[k] == s[..|pair|][k] && s[k + 1..k + 1 + v] == s[..|pair|][k + 1..];
    if k + 1 + v < |s| { assert s[0..j][k + 1 + v] == s[k + 1 + v]; }
    MatchAt(s, k, v);
  }

  /** At the head of a string the parser and the pattern agree. */
  lemma MatchHeadIff(s: string, j: nat, p: Pair)
    ensures MatchHead(s) == Match(p, j) <==> MatchesAt(s, 0, j, p)
  {
    hide MatchHead, MatchesAt;
    if MatchHead(s) == Match(p, j) { ParsedMatches(s, j, p); }
    if MatchesAt(s, 0, j, p) { MatchIsParsed(s, j, p); }
  }

  lemma MatchesLater(s: string, i: nat, j: nat, p: Pair)
    requires s != ""
    ensures MatchesAt(s, i + 1, j + 1, p) <==> MatchesAt(s[1..], i, j, p)
  {
    hide Token;
    if i <= j < |s| { SliceLater(s, i, j); }
  }

  lemma SliceLater(s: string, i: nat, j: nat)
    requires i <= j < |s|
    ensures s[i + 1..j + 1] == s[1..][i..j]
  {
    var a, b := s[i + 1..j + 1], s[1..][i..j];
    assert |a| == |b| && forall k :: 0 <= k < |a| ==> a[k] == s[i + 1 + k] == b[k];
  }

  lemma MatchIsNotEmpty(s: string, i: nat, j: nat, p: Pair)
    requires MatchesAt(s, i, j, p)
    ensures i < j
  {
  }

  lemma MatchFirst(s: string, j: nat, ps: seq<Pair>)
    requires ps != [] && MatchesAt(s, 0, j, ps[0]) && LeftmostMatches(s[j..], ps[1..])
    ensures LeftmostMatches(s, ps)
  {
  }

  /** The parser finds what the pattern's successive leftmost matches are. */
  lemma {:induction false} FindAllLeftmost(s: string)
    ensures LeftmostMatches(s, FindAll(s))
    decreases |s|
  {
    hide Token, MatchHead;
    forall j: nat, p ensures MatchHead(s) == Match(p, j) <==> MatchesAt(s, 0, j, p) { MatchHeadIff(s, j, p); }
    if s == "" {
      forall i: nat, j: nat, p ensures !MatchesAt(s, i, j, p) {
        if MatchesAt(s, i, j, p) { MatchIsNotEmpty(s, i, j, p); }
      }
    } else if MatchHead(s).Match? {
      var m := MatchHead(s);
      FindAllLeftmost(s[m.length..]);
      var ps := FindAll(s);
      assert ps == [m.pair] + FindAll(s[m.length..]);
      assert ps[1..] == FindAll(s[m.length..]);
      MatchFirst(s, m.length, ps);
    } else {
      FindAllLeftmost(s[1..]);
      forall i: nat, j: nat, p ensures MatchesAt(s, i + 1, j + 1, p) <==> MatchesAt(s[1..], i, j, p) {
        MatchesLater(s, i, j, p);
      }
      ShiftMatches(s, FindAll(s[1..]));
    }
  }

  /** Without a match at the head, the matches are those of the rest. */
  lemma ShiftMatches(s: string, ps: seq<Pair>)
    requires s != "" && LeftmostMatches(s[1..], ps)
    requires forall j: nat, p :: !MatchesAt(s, 0, j, p)
    requires forall i: nat, j: nat, p :: MatchesAt(s, i + 1, j + 1, p) <==> MatchesAt(s[1..], i, j, p)
    ensures LeftmostMatches(s, ps)
  {
    forall i: nat, j: nat, p | MatchesAt(s, i, j, p) ensures i > 0 && j > 0 && MatchesAt(s[1..], i - 1, j - 1, p) {
      MatchIsNotEmpty(s, i, j, p);
      assert MatchesAt(s, (i - 1) + 1, (j - 1) + 1, p);
    }
    hide MatchesAt;
    if ps != [] {
      var i: nat, j: nat :| MatchesAt(s[1..], i, j, ps[0]) && (forall k: nat, l: nat, p | k < i ::
        !MatchesAt(s[1..], k, l, p))
        && LeftmostMatches(s[1..][j..], ps[1..]);
      assert j <= |s[1..]| && s[1..][j..] == s[j + 1..];
      assert MatchesAt(s, i + 1, j + 1, ps[0]);
    }
  }

  /** Later pairs override earlier ones. */
  function AddPairs(labels: Labels, ps: seq<Pair>): Labels {
    if ps == [] then labels
    else AddPairs(labels, ps[..|ps| - 1])[ps[|ps| - 1].key := ps[|ps| - 1].value]
  }

  function LabelsForDescription(description: string): Labels {
    AddPairs(map[RAW_DESCRIPTION := description], FindAll(description))
  }

  ghost predicate HasKey(ps: seq<Pair>, k: string) { exists p <- ps :: p.key == k }

  /** The last pair of the key has the value. */
  ghost predicate LastValue(ps: seq<Pair>, k: string, v: string) {
    exists i | 0 <= i < |ps| :: ps[i] == Pair(k, v) && !HasKey(ps[i + 1..], k)
  }

  /** The base is overridden by the last pair of the key, if there is one. */
  ghost predicate OverriddenAt(base: Labels, ps: seq<Pair>, labels: Labels, k: string) {
    && (k in labels <==> k in base || HasKey(ps, k))
    && (k in labels ==> if HasKey(ps, k) then LastValue(ps, k, labels[k]) else labels[k] == base[k])
  }

  lemma {:induction false} AddPairsOverrides(base: Labels, ps: seq<Pair>, k: string)
    ensures OverriddenAt(base, ps, AddPairs(base, ps), k)
  {
    if ps != [] {
      var n := |ps| - 1;
      AddPairsOverrides(base, ps[..n], k);
      OneMorePair(base, ps[..n], ps[n], AddPairs(base, ps[..n]), k);
      assert ps == ps[..n] + [ps[n]];
    }
  }

  lemma HasKeySnoc(ps: seq<Pair>, last: Pair, k: string)
    ensures HasKey(ps + [last], k) <==> HasKey(ps, k) || last.key == k
  {
    assert last in ps + [last] && forall p <- ps :: p in ps + [last];
  }

  lemma LastValueSnoc(ps: seq<Pair>, last: Pair, k: string, v: string)
    requires if last.key == k then v == last.value else LastValue(ps, k, v)
    ensures LastValue(ps + [last], k, v)
  {
    hide HasKey;
    var all := ps + [last];
    if last.key == k {
      assert all[|ps|] == Pair(k, v) && all[|ps| + 1..] == [];
      NoKey(k);
    } else {
      var i :| 0 <= i < |ps| && ps[i] == Pair(k, v) && !HasKey(ps[i + 1..], k);
      HasKeySnoc(ps[i + 1..], last, k);
      assert all[i + 1..] == ps[i + 1..] + [last] && all[i] == ps[i];
    }
  }

  lemma NoKey(k: string)
    ensures !HasKey([], k)
  {
  }

  lemma OneMorePair(base: Labels, ps: seq<Pair>, last: Pair, labels: Labels, k: string)
    requires OverriddenAt(base, ps, labels, k)
    ensures OverriddenAt(base, ps + [last], labels[last.key := last.value], k)
  {
    hide HasKey, LastValue;
    HasKeySnoc(ps, last, k);
    if last.key == k {
      LastValueSnoc(ps, last, k, last.value);
    } else if HasKey(ps, k) {
      LastValueSnoc(ps, last, k, labels[k]);
    }
  }

  /** A rule's labels: its description, overridden by the pairs that the pattern finds in it. */
  lemma LabelsAreMatches(description: string)
    ensures exists ps :: LeftmostMatches(description, ps) && forall k ::
      OverriddenAt(map[RAW_DESCRIPTION := description], ps, LabelsForDescription(description), k)
  {
    var ps, base := FindAll(description), map[RAW_DESCRIPTION := description];
    FindAllLeftmost(description);
    forall k ensures OverriddenAt(base, ps, AddPairs(base, ps), k) { AddPairsOverrides(base, ps, k); }
  }

  method BuildIPPermissionLabelsForDescription(description: string) returns (labels: Labels)
    ensures labels == LabelsForDescription(description)
  {
    labels := map[RAW_DESCRIPTION := description];
    var groups := FindAll(description);
    for i := 0 to |groups|
      invariant labels == AddPairs(map[RAW_DESCRIPTION := description], groups[..i])
    {
      assert groups[..i + 1][..i] == groups[..i];
      labels := labels[groups[i].key := groups[i].value];
    }
    assert groups[..|groups|] == groups;
  }

  // ---------------------------------------------------------------- printer

  function LabelOf(labels: Labels, k: string): string { if k in labels then labels[k] else "" }

  function PrintPairs(keys: seq<string>, labels: Labels): string {
    if keys == [] then ""
    else if |keys| == 1 then keys[0] + "=" + LabelOf(labels, keys[0])
    else keys[0] + "=" + LabelOf(labels, keys[0]) + "," + PrintPairs(keys[1..], labels)
  }

  /** The keys that the printer walks over: every key once, in ascending order. */
  ghost predicate SortedKeys(keys: seq<string>, labels: Labels) {
    Elements(keys) == labels.Keys && NoDuplicates(keys) && LexSorted(keys)
  }

  /** A description of labels: the raw one if there is one, otherwise the printed pairs. */
  ghost predicate Describes(description: string, labels: Labels) {
    if RAW_DESCRIPTION in labels then description == labels[RAW_DESCRIPTION]
    else exists keys ::
      SortedKeys(keys, labels) && (forall k <- keys :: k in labels) && description == PrintPairs(keys, labels)
  }

  method BuildIPPermissionDescriptionForLabels(labels: Labels) returns (description: string)
    ensures Describes(description, labels)
  {
    if RAW_DESCRIPTION in labels { return labels[RAW_DESCRIPTION]; }
    var keys := SortedList(labels.Keys);
    assert forall k <- keys :: k in labels by { assert forall k <- keys :: k in Elements(keys); }
    description := "";
    var i := |keys|;
    while i > 0
      invariant 0 <= i <= |keys|
      invariant description == PrintPairs(keys[i..], labels)
    {
      i := i - 1;
      assert keys[i..][1..] == keys[i + 1..];
      var pair := keys[i] + "=" + labels[keys[i]];
      description := if i == |keys| - 1 then pair else pair + "," + description;
    }
    assert keys[0..] == keys;
  }

  // ---------------------------------------------------------------- round trip

  ghost predicate CleanLabels(labels: Labels) {
    forall k <- labels :: Token(k) && Token(labels[k])
  }

  function PairsOf(keys: seq<string>, labels: Labels): seq<Pair> {
    seq(|keys|, i requires 0 <= i < |keys| => Pair(keys[i], LabelOf(labels, keys[i])))
  }

  /** A pair that ends in a comma or at the end is matched, and consumed with the comma. */
  lemma MatchAt(s: string, k: nat, v: nat)
    requires 0 < k && 0 < v && k + 1 + v <= |s| && s[k] == '='
    requires Token(s[..k]) && Token(s[k + 1..k + 1 + v])
    requires k + 1 + v < |s| ==> s[k + 1 + v] == ','
    ensures MatchHead(s) == Match(Pair(s[..k], s[k + 1..k + 1 + v]), if k + 1 + v < |s| then k + v + 2 else k + v + 1)
  {
    forall i | 0 <= i < k ensures TokenChar(s[i]) { assert s[..k][i] in s[..k]; }
    var tail := s[k + 1..];
    forall i | 0 <= i < v ensures TokenChar(tail[i]) {
      assert s[k + 1..k + 1 + v][i] in s[k + 1..k + 1 + v];
    }
  }

  lemma MatchPrinted(k: string, v: string, rest: string)
    requires Token(k) && Token(v)
    requires rest != "" ==> rest[0] == ','
    ensures MatchHead(k + "=" + v + rest) ==
      Match(Pair(k, v), if rest != "" then |k| + |v| + 2 else |k| + |v| + 1)
  {
    var s := k + "=" + v + rest;
    assert s[..|k|] == k && s[|k| + 1..|k| + 1 + |v|] == v;
    MatchAt(s, |k|, |v|);
  }

  lemma FindAllNext(k: string, v: string, rest: string)
    requires Token(k) && Token(v)
    ensures FindAll(k + "=" + v) == [Pair(k, v)]
    ensures FindAll(k + "=" + v + "," + rest) == [Pair(k, v)] + FindAll(rest)
  {
    var alone, more := k + "=" + v, k + "=" + v + "," + rest;
    MatchPrinted(k, v, "");
    assert k + "=" + v + "" == alone;
    MatchPrinted(k, v, "," + rest);
    assert k + "=" + v + ("," + rest) == more;
  }

  lemma {:induction false} FindAllPrinted(keys: seq<string>, labels: Labels)
    requires forall k <- keys :: k in labels && Token(k) && Token(labels[k])
    ensures FindAll(PrintPairs(keys, labels)) == PairsOf(keys, labels)
  {
    if keys != [] {
      FindAllNext(keys[0], labels[keys[0]], PrintPairs(keys[1..], labels));
      FindAllPrinted(keys[1..], labels);
      assert PairsOf(keys, labels) == [Pair(keys[0], labels[keys[0]])] + PairsOf(keys[1..], labels);
    }
  }

  lemma {:induction false} AddLabelPairs(base: Labels, keys: seq<string>, labels: Labels)
    requires forall k <- keys :: k in labels
    ensures var all := AddPairs(base, PairsOf(keys, labels));
      && (forall k :: k in all <==> k in base || k in keys)
      && (forall k <- all :: all[k] == if k in keys then labels[k] else base[k])
  {
    if keys != [] {
      var n := |keys| - 1;
      assert PairsOf(keys, labels)[..n] == PairsOf(keys[..n], labels);
      AddLabelPairs(base, keys[..n], labels);
      assert keys == keys[..n] + [keys[n]];
    }
  }

  lemma {:induction false} AddedPairsAreTokens(base: Labels, ps: seq<Pair>, k: string)
    requires forall p <- ps :: Token(p.key) && Token(p.value)
    requires k !in base && k in AddPairs(base, ps)
    ensures Token(k) && Token(AddPairs(base, ps)[k])
  {
    if ps != [] && k != ps[|ps| - 1].key {
      AddedPairsAreTokens(base, ps[..|ps| - 1], k);
    }
  }

  lemma CleanLabelsSurvive(keys: seq<string>, labels: Labels)
    requires RAW_DESCRIPTION !in labels && CleanLabels(labels)
    requires forall k :: k in keys <==> k in labels
    ensures LabelsForDescription(PrintPairs(keys, labels)) == labels[RAW_DESCRIPTION := PrintPairs(keys, labels)]
  {
    var description := PrintPairs(keys, labels);
    var base: Labels := map[RAW_DESCRIPTION := description];
    FindAllPrinted(keys, labels);
    AddLabelPairs(base, keys, labels);
    var parsed, expected := AddPairs(base, PairsOf(keys, labels)), labels[RAW_DESCRIPTION := description];
    assert parsed.Keys == expected.Keys;
    assert forall k <- expected :: parsed[k] == expected[k];
  }

  lemma SurvivingLabelsAreClean(labels: Labels, description: string)
    requires RAW_DESCRIPTION !in labels
    requires LabelsForDescription(description) == labels[RAW_DESCRIPTION := description]
    ensures CleanLabels(labels)
  {
    forall k | k in labels ensures Token(k) && Token(labels[k]) {
      assert labels[k] == LabelsForDescription(description)[k];
      AddedPairsAreTokens(map[RAW_DESCRIPTION := description], FindAll(description), k);
    }
  }

  /**
   * Parsing a printed description returns the labels, together with the raw description,
   * exactly when every key and value is a token (labels without the raw key).
   */
  lemma LabelRoundTrip(labels: Labels, description: string)
    requires RAW_DESCRIPTION !in labels && Describes(description, labels)
    ensures LabelsForDescription(description) == labels[RAW_DESCRIPTION := description] <==> CleanLabels(labels)
  {
    if CleanLabels(labels) {
      var keys :| SortedKeys(keys, labels) && (forall k <- keys :: k in labels)
        && description == PrintPairs(keys, labels);
      assert forall k :: k in Elements(keys) <==> k in labels;
      CleanLabelsSurvive(keys, labels);
    } else if LabelsForDescription(description) == labels[RAW_DESCRIPTION := description] {
      SurvivingLabelsAreClean(labels, description);
    }
  }
}
