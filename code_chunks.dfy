/**
 * Frequency guessing from a series code, and the split of a code list into
 * request chunks that share one guessed frequency and hold at most
 * `chunk_size` codes each (the code API takes at most 250 codes of one
 * frequency per request).
 */
module CodeChunks {
  import opened Text
  import opened Errors

  const AT_SUFFIXES: set<string> := {"D", "W", "W0", "W1", "W2", "W3", "W4", "W5", "W6", "M", "Q"}
  const KNOWN_FREQUENCIES: set<string> := {"CY", "FY", "CH", "FH", "Q", "M", "W", "D"}
  const UNKNOWN: string := "UNKNOWN"

  /** Position of the last `c` in `s`. */
  function LastIndexOf(s: string, c: char): (r: Option<nat>)
    ensures r.Some? ==> r.value < |s| && s[r.value] == c && forall j :: r.value < j < |s| ==> s[j] != c
    ensures r.None? ==> forall j :: 0 <= j < |s| ==> s[j] != c
  {
    if |s| == 0 then None
    else if s[|s| - 1] == c then Some(|s| - 1)
    else LastIndexOf(s[..|s| - 1], c)
  }

  /** `code.rsplit("@", 1)[-1]` when the code contains `@`. */
  function AtSuffix(code: string): (r: Option<string>)
    ensures r.Some? ==> forall j :: 0 <= j < |r.value| ==> r.value[j] != '@'
    ensures r.None? <==> forall j :: 0 <= j < |code| ==> code[j] != '@'
  {
    match LastIndexOf(code, '@')
    case None => None
    case Some(i) => Some(code[i + 1..])
  }

  predicate IsFrequencyLetter(c: char) {
    c in {'C', 'Y', 'F', 'H', 'Q', 'M', 'W', 'D'}
  }

  /** How many digits end the string. */
  function TrailingDigits(u: string): (d: nat)
    ensures d <= |u|
    ensures forall j :: |u| - d <= j < |u| ==> IsDigit(u[j])
    ensures d < |u| ==> !IsDigit(u[|u| - d - 1])
  {
    if |u| == 0 || !IsDigit(u[|u| - 1]) then 0 else TrailingDigits(u[..|u| - 1]) + 1
  }

  /** `[CYFHQMWD]{1,2}` at `i` (length `k`), then two or more digits up to the end. */
  ghost predicate MatchAt(u: string, i: int, k: int) {
    1 <= k <= 2 && 0 <= i && i + k + 2 <= |u|
    && (forall j :: i <= j < i + k ==> IsFrequencyLetter(u[j]))
    && (forall j :: i + k <= j < |u| ==> IsDigit(u[j]))
  }

  /**
   * Group 1 of `re.search(r"([CYFHQMWD]{1,2})\d{2,}$", u)`: the letters
   * right before the trailing digits, two of them when both qualify.
   */
  function RegexGroup(u: string): (g: Option<string>)
    ensures g.Some? ==> 1 <= |g.value| <= 2
  {
    var t := |u| - TrailingDigits(u);
    if TrailingDigits(u) < 2 then None
    else if t >= 2 && IsFrequencyLetter(u[t - 2]) && IsFrequencyLetter(u[t - 1]) then Some(u[t - 2..t])
    else if t >= 1 && IsFrequencyLetter(u[t - 1]) then Some(u[t - 1..t])
    else None
  }

  /** Any match ends its letters exactly where the trailing digits begin. */
  lemma MatchEndsAtDigits(u: string, i: int, k: int)
    requires MatchAt(u, i, k)
    ensures i + k == |u| - TrailingDigits(u)
  {
    var t := |u| - TrailingDigits(u);
    assert t >= 1 ==> !IsDigit(u[t - 1]);
    assert !IsDigit(u[i + k - 1]) && IsDigit(u[i + k]);
  }

  /** RegexGroup is the regular expression's leftmost, greedy match. */
  lemma RegexGroupIsLeftmostMatch(u: string)
    ensures RegexGroup(u).None? <==> forall i, k :: !MatchAt(u, i, k)
    ensures RegexGroup(u).Some? ==>
      exists i, k :: MatchAt(u, i, k) && RegexGroup(u).value == u[i..i + k]
        && (forall j, k' :: j < i ==> !MatchAt(u, j, k'))
        && (k == 1 ==> !MatchAt(u, i, 2))
  {
    forall i, k | MatchAt(u, i, k) ensures RegexGroup(u).Some? {
      MatchEndsAtDigits(u, i, k);
    }
    if RegexGroup(u).Some? {
      var k := |RegexGroup(u).value|;
      var i := |u| - TrailingDigits(u) - k;
      GroupIsMatch(u);
      GroupIsLeftmost(u);
      assert MatchAt(u, i, k) && RegexGroup(u).value == u[i..i + k]
        && (forall j, k' :: j < i ==> !MatchAt(u, j, k'))
        && (k == 1 ==> !MatchAt(u, i, 2));
    }
  }

  /** The group found is a match that ends where the trailing digits begin. */
  lemma GroupIsMatch(u: string)
    requires RegexGroup(u).Some?
    ensures var k := |RegexGroup(u).value|; var i := |u| - TrailingDigits(u) - k;
      MatchAt(u, i, k) && RegexGroup(u).value == u[i..i + k]
  {
    var t := |u| - TrailingDigits(u);
    var k := |RegexGroup(u).value|;
    assert RegexGroup(u).value == u[t - k..t];
    LettersBeforeDigitsMatch(u, k);
  }

  /** `k` frequency letters right before two or more trailing digits are a match. */
  lemma LettersBeforeDigitsMatch(u: string, k: int)
    requires 1 <= k <= 2 && TrailingDigits(u) >= 2 && |u| - TrailingDigits(u) >= k
    requires forall j :: |u| - TrailingDigits(u) - k <= j < |u| - TrailingDigits(u) ==> IsFrequencyLetter(u[j])
    ensures MatchAt(u, |u| - TrailingDigits(u) - k, k)
  {
  }

  /** No match starts before the group found, and a one-letter group has no two-letter match at its start. */
  lemma GroupIsLeftmost(u: string)
    requires RegexGroup(u).Some?
    ensures var k := |RegexGroup(u).value|; var i := |u| - TrailingDigits(u) - k;
      (forall j, k' :: j < i ==> !MatchAt(u, j, k')) && (k == 1 ==> !MatchAt(u, i, 2))
  {
    var t := |u| - TrailingDigits(u);
    var k := |RegexGroup(u).value|;
    var i := t - k;
    var two := t >= 2 && IsFrequencyLetter(u[t - 2]) && IsFrequencyLetter(u[t - 1]);
    assert k == (if two then 2 else 1);
    forall j, k' | j < i && MatchAt(u, j, k') ensures false {
      MatchEndsAtDigits(u, j, k');
    }
    if k == 1 && MatchAt(u, i, 2) {
      MatchEndsAtDigits(u, i, 2);
    }
  }

  /** The frequency a series code's spelling suggests, or UNKNOWN. */
  function GuessFrequencyFromCode(code: string): (r: string)
    ensures r in KNOWN_FREQUENCIES || r == UNKNOWN
    ensures AtSuffix(code).Some? && Upper(AtSuffix(code).value) in AT_SUFFIXES ==>
      r == (if Upper(AtSuffix(code).value)[0] == 'W' then "W" else Upper(AtSuffix(code).value))
  {
    var suffix := AtSuffix(code);
    if suffix.Some? && suffix.value != "" && Upper(suffix.value) in AT_SUFFIXES then
      var s := Upper(suffix.value);
      if s[0] == 'W' then "W" else s
    else match RegexGroup(Upper(code))
      case Some(g) => if g in KNOWN_FREQUENCIES then g else UNKNOWN
      case None => UNKNOWN
  }

  /** A two-letter run that is not a frequency gives UNKNOWN, even if its last letter alone is one. */
  lemma TwoLetterRunWins()
    ensures RegexGroup("XQM01") == Some("QM")
    ensures GuessFrequencyFromCode("XQM01") == UNKNOWN
  {
    TwoLetterGroup();
    TwoLetterCodeUpper();
    TwoLetterCodeNoAt();
    QmNotAFrequency();
    GuessWithoutSuffix("XQM01");
  }

  lemma QmNotAFrequency()
    ensures "QM" !in KNOWN_FREQUENCIES
  {
    assert "QM"[0] == 'Q' && "QM"[1] == 'M';
  }

  /**
   * Without an `@`, or with one whose suffix is empty or not a known suffix, the guess is the
   * regular expression's group when that names a frequency.
   */
  lemma GuessWithoutSuffix(code: string)
    requires AtSuffix(code).None? || AtSuffix(code).value == "" || Upper(AtSuffix(code).value) !in AT_SUFFIXES
    ensures GuessFrequencyFromCode(code) ==
      match RegexGroup(Upper(code))
      case Some(g) => if g in KNOWN_FREQUENCIES then g else UNKNOWN
      case None => UNKNOWN
  {
  }

  lemma TwoLetterCodeNoAt()
    ensures AtSuffix("XQM01").None?
  {
    assert forall j :: 0 <= j < |"XQM01"| ==> "XQM01"[j] != '@';
  }

  lemma TwoLetterCodeUpper()
    ensures Upper("XQM01") == "XQM01"
  {
    var u := Upper("XQM01");
    assert u[0] == 'X' && u[1] == 'Q' && u[2] == 'M' && u[3] == '0' && u[4] == '1';
  }

  lemma TwoLetterGroup()
    ensures RegexGroup("XQM01") == Some("QM")
  {
    TwoTrailingDigits();
    assert "XQM01"[1..3] == "QM";
  }

  lemma TwoTrailingDigits()
    ensures TrailingDigits("XQM01") == 2
  {
    assert "XQM01"[..4] == "XQM0" && "XQM0"[..3] == "XQM";
  }

  /** An `@` suffix names the frequency directly; weekly anchors W0..W6 all count as W. */
  lemma AtSuffixExamples()
    ensures GuessFrequencyFromCode("SERIES@M") == "M"
    ensures GuessFrequencyFromCode("SERIES@w3") == "W"
  {
    assert AtSuffix("SERIES@M") == Some("M") by {
      assert LastIndexOf("SERIES@M", '@') == Some(6);
    }
    assert Upper("M") == "M";
    assert AtSuffix("SERIES@w3") == Some("w3") by {
      assert LastIndexOf("SERIES@w3", '@') == Some(6);
    }
    assert Upper("w3") == "W3";
  }

  // ---------------------------------------------------------------------
  // Splitting by frequency and size, for any key function.

  type KeyFn = string -> string

  /** Keys in order of first appearance. */
  function Order(codes: seq<string>, key: KeyFn): seq<string> {
    if |codes| == 0 then []
    else
      var prev := Order(codes[..|codes| - 1], key);
      var last := codes[|codes| - 1];
      if key(last) in prev then prev else prev + [key(last)]
  }

  /** Each key is listed once, every code's key is listed, and only those. */
  lemma {:induction false} OrderFacts(codes: seq<string>, key: KeyFn)
    ensures var o := Order(codes, key);
      (forall a, b :: 0 <= a < b < |o| ==> o[a] != o[b])
      && (forall c :: c in codes ==> key(c) in o)
      && (forall k :: k in o ==> exists c :: c in codes && key(c) == k)
    decreases |codes|
  {
    if |codes| > 0 {
      var prefix := codes[..|codes| - 1];
      OrderFacts(prefix, key);
      assert codes == prefix + [codes[|codes| - 1]];
      var o := Order(codes, key);
      forall k | k in o ensures exists c :: c in codes && key(c) == k {
        if k in Order(prefix, key) {
          var c :| c in prefix && key(c) == k;
          assert c in codes;
        } else {
          assert key(codes[|codes| - 1]) == k;
        }
      }
    }
  }

  lemma OrderEmpty(codes: seq<string>, key: KeyFn)
    ensures Order(codes, key) == [] <==> codes == []
  {
    if |codes| > 0 {
      var last := codes[|codes| - 1];
      assert key(last) in Order(codes, key);
    }
  }

  /** The codes with key `k`, in input order. */
  function Group(codes: seq<string>, key: KeyFn, k: string): seq<string> {
    if |codes| == 0 then []
    else Group(codes[..|codes| - 1], key, k) + (if key(codes[|codes| - 1]) == k then [codes[|codes| - 1]] else [])
  }

  /** A group holds codes of its key only, and nothing when no code has that key. */
  lemma {:induction false} GroupFacts(codes: seq<string>, key: KeyFn, k: string)
    ensures forall x :: x in Group(codes, key, k) ==> x in codes && key(x) == k
    ensures (forall c :: c in codes ==> key(c) != k) ==> Group(codes, key, k) == []
    decreases |codes|
  {
    if |codes| > 0 {
      var prefix := codes[..|codes| - 1];
      GroupFacts(prefix, key, k);
      assert codes == prefix + [codes[|codes| - 1]];
    }
  }

  /** `[items[i:i+size] for i in range(0, len(items), size)]`. */
  function Chunked(items: seq<string>, size: nat): seq<seq<string>>
    requires size >= 1
    decreases |items|
  {
    if |items| == 0 then []
    else if |items| <= size then [items]
    else [items[..size]] + Chunked(items[size..], size)
  }

  /** Every chunk holds between 1 and `size` items, all taken from the input. */
  lemma {:induction false} ChunkedBounds(items: seq<string>, size: nat)
    requires size >= 1
    ensures forall c :: c in Chunked(items, size) ==> 1 <= |c| <= size
    ensures forall c, x :: c in Chunked(items, size) && x in c ==> x in items
    decreases |items|
  {
    if |items| > size {
      ChunkedBounds(items[size..], size);
      assert items == items[..size] + items[size..];
    }
  }

  function Flatten(chunks: seq<seq<string>>): seq<string> {
    if |chunks| == 0 then [] else chunks[0] + Flatten(chunks[1..])
  }

  lemma {:induction false} FlattenAppend(a: seq<seq<string>>, b: seq<seq<string>>)
    ensures Flatten(a + b) == Flatten(a) + Flatten(b)
    decreases |a|
  {
    if |a| > 0 {
      assert (a + b)[1..] == a[1..] + b;
      FlattenAppend(a[1..], b);
    } else {
      assert a + b == b;
    }
  }

  /** Chunking keeps every item, in order. */
  lemma {:induction false} ChunkedFlatten(items: seq<string>, size: nat)
    requires size >= 1
    ensures Flatten(Chunked(items, size)) == items
    decreases |items|
  {
    if |items| > size {
      ChunkedFlatten(items[size..], size);
      assert items == items[..size] + items[size..];
    }
  }

  /** Only the last chunk may be short. */
  lemma {:induction false} ChunkedSizes(items: seq<string>, size: nat)
    requires size >= 1
    ensures forall j :: 0 <= j < |Chunked(items, size)| - 1 ==> |Chunked(items, size)[j]| == size
    decreases |items|
  {
    var chunks := Chunked(items, size);
    if |items| > size {
      var rest := Chunked(items[size..], size);
      ChunkedSizes(items[size..], size);
      assert chunks == [items[..size]] + rest;
      forall j | 0 <= j < |chunks| - 1 ensures |chunks[j]| == size {
        if j > 0 {
          assert chunks[j] == rest[j - 1];
        }
      }
    }
  }

  /** 300 codes of one frequency make a chunk of 250 and a chunk of 50. */
  lemma ThreeHundredCodes(items: seq<string>)
    requires |items| == 300
    ensures |Chunked(items, 250)| == 2
    ensures |Chunked(items, 250)[0]| == 250 && |Chunked(items, 250)[1]| == 50
  {
    assert Chunked(items, 250) == [items[..250]] + Chunked(items[250..], 250);
    assert Chunked(items[250..], 250) == [items[250..]];
  }

  /** The groups of `keys`, one after the other. */
  function ConcatGroups(keys: seq<string>, codes: seq<string>, key: KeyFn): seq<string> {
    if |keys| == 0 then [] else Group(codes, key, keys[0]) + ConcatGroups(keys[1..], codes, key)
  }

  /** The chunks of the groups of `keys`, one group after the other. */
  function ChunksFor(keys: seq<string>, codes: seq<string>, key: KeyFn, size: nat): seq<seq<string>>
    requires size >= 1
  {
    if |keys| == 0 then []
    else Chunked(Group(codes, key, keys[0]), size) + ChunksFor(keys[1..], codes, key, size)
  }

  /** Every chunk is within bounds and holds codes of one listed key. */
  lemma {:induction false} ChunksForFacts(keys: seq<string>, codes: seq<string>, key: KeyFn, size: nat)
    requires size >= 1
    ensures forall c :: c in ChunksFor(keys, codes, key, size) ==> 1 <= |c| <= size
    ensures forall c, x, y :: c in ChunksFor(keys, codes, key, size) && x in c && y in c ==> key(x) == key(y)
    ensures forall c, x :: c in ChunksFor(keys, codes, key, size) && x in c ==> key(x) in keys
    decreases |keys|
  {
    if |keys| > 0 {
      var items := Group(codes, key, keys[0]);
      ChunkedBounds(items, size);
      GroupFacts(codes, key, keys[0]);
      ChunksForFacts(keys[1..], codes, key, size);
      assert forall k :: k in keys[1..] ==> k in keys;
    }
  }

  lemma {:induction false} ChunksForFlatten(keys: seq<string>, codes: seq<string>, key: KeyFn, size: nat)
    requires size >= 1
    ensures Flatten(ChunksFor(keys, codes, key, size)) == ConcatGroups(keys, codes, key)
    decreases |keys|
  {
    if |keys| > 0 {
      var head := Chunked(Group(codes, key, keys[0]), size);
      FlattenAppend(head, ChunksFor(keys[1..], codes, key, size));
      ChunkedFlatten(Group(codes, key, keys[0]), size);
      ChunksForFlatten(keys[1..], codes, key, size);
    }
  }

  /** The split the library returns for a positive chunk size. */
  function SplitSpec(codes: seq<string>, key: KeyFn, size: nat): seq<seq<string>>
    requires size >= 1
  {
    ChunksFor(Order(codes, key), codes, key, size)
  }

  lemma {:induction false} ConcatGroupsAppendKey(keys: seq<string>, k: string, codes: seq<string>, key: KeyFn)
    ensures ConcatGroups(keys + [k], codes, key) == ConcatGroups(keys, codes, key) + Group(codes, key, k)
    decreases |keys|
  {
    if |keys| > 0 {
      assert (keys + [k])[1..] == keys[1..] + [k];
      ConcatGroupsAppendKey(keys[1..], k, codes, key);
    }
  }

  /** Appending a code adds it once, to the group of its own key, when that key is listed once. */
  lemma {:induction false} ConcatGroupsAppendCode(keys: seq<string>, codes: seq<string>, c: string, key: KeyFn)
    requires forall a, b :: 0 <= a < b < |keys| ==> keys[a] != keys[b]
    requires key(c) in keys
    ensures multiset(ConcatGroups(keys, codes + [c], key)) == multiset(ConcatGroups(keys, codes, key)) + multiset{c}
    decreases |keys|
  {
    var codes' := codes + [c];
    assert codes'[..|codes'| - 1] == codes;
    if keys[0] == key(c) {
      assert key(c) !in keys[1..];
      GroupsWithoutKey(keys[1..], codes, c, key);
    } else {
      ConcatGroupsAppendCode(keys[1..], codes, c, key);
    }
  }

  lemma {:induction false} GroupsWithoutKey(keys: seq<string>, codes: seq<string>, c: string, key: KeyFn)
    requires key(c) !in keys
    ensures ConcatGroups(keys, codes + [c], key) == ConcatGroups(keys, codes, key)
    decreases |keys|
  {
    if |keys| > 0 {
      assert (codes + [c])[..|codes|] == codes;
      GroupsWithoutKey(keys[1..], codes, c, key);
    }
  }

  lemma GroupOfUnseenKey(codes: seq<string>, key: KeyFn, k: string)
    requires k !in Order(codes, key)
    ensures Group(codes, key, k) == []
  {
    OrderFacts(codes, key);
    GroupFacts(codes, key, k);
  }

  /** Grouping in order of first appearance is a permutation of the input. */
  lemma {:induction false} GroupsArePermutation(codes: seq<string>, key: KeyFn)
    ensures multiset(ConcatGroups(Order(codes, key), codes, key)) == multiset(codes)
    decreases |codes|
  {
    if |codes| > 0 {
      var prefix := codes[..|codes| - 1];
      var c := codes[|codes| - 1];
      assert codes == prefix + [c];
      GroupsArePermutation(prefix, key);
      OrderFacts(prefix, key);
      var prev := Order(prefix, key);
      if key(c) in prev {
        ConcatGroupsAppendCode(prev, prefix, c, key);
      } else {
        var keys := prev + [key(c)];
        ConcatGroupsAppendCode(keys, prefix, c, key);
        ConcatGroupsAppendKey(prev, key(c), prefix, key);
        GroupOfUnseenKey(prefix, key, key(c));
      }
    }
  }

  /**
   * Every chunk of the split is non-empty, holds at most `size` codes that
   * share one key, and the chunks together are a permutation of the input.
   */
  lemma SplitSpecProperties(codes: seq<string>, key: KeyFn, size: nat)
    requires size >= 1
    ensures forall c :: c in SplitSpec(codes, key, size) ==> 1 <= |c| <= size
    ensures forall c, x, y :: c in SplitSpec(codes, key, size) && x in c && y in c ==> key(x) == key(y)
    ensures multiset(Flatten(SplitSpec(codes, key, size))) == multiset(codes)
    ensures Flatten(SplitSpec(codes, key, size)) == ConcatGroups(Order(codes, key), codes, key)
  {
    ChunksForFlatten(Order(codes, key), codes, key, size);
    ChunksForFacts(Order(codes, key), codes, key, size);
    GroupsArePermutation(codes, key);
  }

  lemma GroupSnoc(codes: seq<string>, c: string, key: KeyFn, k: string)
    ensures Group(codes + [c], key, k) == Group(codes, key, k) + (if key(c) == k then [c] else [])
  {
    assert (codes + [c])[..|codes|] == codes;
  }

  lemma ChunkedStep(items: seq<string>, idx: nat, size: nat)
    requires size >= 1 && idx < |items|
    ensures Chunked(items[idx..], size)
      == [items[idx..if idx + size < |items| then idx + size else |items|]]
         + (if idx + size < |items| then Chunked(items[idx + size..], size) else [])
  {
    if idx + size < |items| {
      assert items[idx..][size..] == items[idx + size..];
      assert items[idx..][..size] == items[idx..idx + size];
    } else {
      assert items[idx..|items|] == items[idx..];
    }
  }

  /** `grouped` and `order` are the groups and first-seen key order of `codes`. */
  ghost predicate GroupedBy(grouped: map<string, seq<string>>, order: seq<string>, codes: seq<string>, key: KeyFn) {
    && order == Order(codes, key)
    && (forall k :: k in grouped <==> k in order)
    && (forall k :: k in grouped ==> grouped[k] == Group(codes, key, k))
  }

  /** One step of the grouping loop: a new key is listed last with an empty group, then the code joins its group. */
  lemma GroupedStep(grouped: map<string, seq<string>>, order: seq<string>, codes: seq<string>, key: KeyFn, code: string,
                    k: string, grouped': map<string, seq<string>>, order': seq<string>)
    requires GroupedBy(grouped, order, codes, key) && k == key(code)
    requires order' == if k in grouped then order else order + [k]
    requires grouped' == grouped[k := (if k in grouped then grouped[k] else []) + [code]]
    ensures GroupedBy(grouped', order', codes + [code], key)
  {
    assert (codes + [code])[..|codes|] == codes;
    forall k' | k' in grouped {
      GroupSnoc(codes, code, key, k');
    }
    if k !in grouped {
      GroupOfUnseenKey(codes, key, k);
      GroupSnoc(codes, code, key, k);
    }
  }

  /**
   * The first loop: group the codes by their key (the guessed frequency, when
   * called from the split), keeping first-seen order.
   */
  method GroupBy(codes: seq<string>, key: KeyFn) returns (grouped: map<string, seq<string>>, order: seq<string>)
    ensures order == Order(codes, key)
    ensures forall k :: k in grouped <==> k in order
    ensures forall k :: k in grouped ==> grouped[k] == Group(codes, key, k)
  {
    grouped := map[];
    order := [];
    var i := 0;
    while i < |codes|
      invariant 0 <= i <= |codes|
      invariant GroupedBy(grouped, order, codes[..i], key)
    {
      var code := codes[i];
      var k := key(code);
      ghost var grouped0, order0 := grouped, order;
      if k !in grouped {
        grouped := grouped[k := []];
        order := order + [k];
      }
      grouped := grouped[k := grouped[k] + [code]];
      GroupedStep(grouped0, order0, codes[..i], key, code, k, grouped, order);
      assert codes[..i + 1] == codes[..i] + [code];
      i := i + 1;
    }
    assert codes[..i] == codes;
  }

  /** The chunks still to come when the loop index is `idx`. */
  function ChunksFrom(items: seq<string>, idx: nat, size: nat): seq<seq<string>>
    requires size >= 1
  {
    if idx >= |items| then [] else Chunked(items[idx..], size)
  }

  lemma AppendStep(out: seq<seq<string>>, items: seq<string>, idx: nat, stop: nat, size: nat)
    requires size >= 1 && idx < |items|
    requires stop == if idx + size < |items| then idx + size else |items|
    ensures out + ChunksFrom(items, idx, size) == (out + [items[idx..stop]]) + ChunksFrom(items, idx + size, size)
  {
    ChunkedStep(items, idx, size);
    assert out + ([items[idx..stop]] + ChunksFrom(items, idx + size, size))
      == (out + [items[idx..stop]]) + ChunksFrom(items, idx + size, size);
  }

  /** The inner loop: append the slices `items[idx:idx + size]` for `idx` in `range(0, len(items), size)`. */
  method AppendChunks(chunks: seq<seq<string>>, items: seq<string>, size: int) returns (out: seq<seq<string>>)
    requires size >= 1
    ensures out == chunks + Chunked(items, size)
  {
    out := chunks;
    var idx := 0;
    ghost var goal := chunks + Chunked(items, size);
    assert items[0..] == items;
    assert ChunksFrom(items, 0, size) == Chunked(items, size);
    while idx < |items|
      invariant 0 <= idx
      invariant out + ChunksFrom(items, idx, size) == goal
      decreases |items| - idx
    {
      var stop := if idx + size < |items| then idx + size else |items|;
      AppendStep(out, items, idx, stop, size);
      out := out + [items[idx..stop]];
      idx := idx + size;
    }
    assert ChunksFrom(items, idx, size) == [];
    assert out + [] == out;
  }

  lemma ChunksForStep(chunks: seq<seq<string>>, keys: seq<string>, j: nat, codes: seq<string>, key: KeyFn, size: nat)
    requires size >= 1 && j < |keys|
    ensures chunks + ChunksFor(keys[j..], codes, key, size)
      == (chunks + Chunked(Group(codes, key, keys[j]), size)) + ChunksFor(keys[j + 1..], codes, key, size)
  {
    assert keys[j..][1..] == keys[j + 1..];
  }

  /** `split_codes_by_frequency_and_size`: a ValueError from `range` when the size is zero. */
  method SplitCodesByFrequencyAndSize(codes: seq<string>, chunkSize: int) returns (r: Result<seq<seq<string>>>)
    ensures chunkSize >= 1 ==> r == Ok(SplitSpec(codes, GuessFrequencyFromCode, chunkSize))
    ensures chunkSize == 0 ==> (r.Ok? <==> codes == []) && (r.Ok? ==> r.value == [])
    ensures chunkSize < 0 ==> r == Ok([])
  {
    var grouped, order := GroupBy(codes, GuessFrequencyFromCode);
    if chunkSize == 0 {
      if |order| > 0 {
        return Err(ValueError("range() arg 3 must not be zero"));
      }
      OrderEmpty(codes, GuessFrequencyFromCode);
      return Ok([]);
    }
    if chunkSize < 0 {
      return Ok([]);
    }
    var chunks: seq<seq<string>> := [];
    var j := 0;
    ghost var key: KeyFn := GuessFrequencyFromCode;
    ghost var goal := ChunksFor(order, codes, key, chunkSize);
    assert order[0..] == order;
    while j < |order|
      invariant 0 <= j <= |order|
      invariant chunks + ChunksFor(order[j..], codes, key, chunkSize) == goal
    {
      ChunksForStep(chunks, order, j, codes, key, chunkSize);
      chunks := AppendChunks(chunks, grouped[order[j]], chunkSize);
      j := j + 1;
    }
    assert order[j..] == [];
    assert chunks + [] == chunks;
    assert chunks == SplitSpec(codes, GuessFrequencyFromCode, chunkSize);
    return Ok(chunks);
  }
}
