/** The `/sync` request of `risepir-http/src/node.rs`: the lineage gate, the query string, and the reply. */
module SyncRequest {
  import opened Words
  import opened Wrappers
  import opened Decimals
  import opened Deltas
  import opened Coalesce
  import opened Node

  /** The pieces of `s` between separators. */
  function Split(s: string, sep: char): (parts: seq<string>)
    ensures parts != []
    decreases |s|
  {
    var i := IndexOf(s, sep);
    if i == |s| then [s] else [s[..i]] + Split(s[i + 1..], sep)
  }

  /** The value of the first `epoch=...` pair. */
  function FirstEpoch(pairs: seq<string>): Option<string> {
    if pairs == [] then None
    else
      var p := pairs[0];
      var i := IndexOf(p, '=');
      if i < |p| && p[..i] == "epoch" then Some(p[i + 1..]) else FirstEpoch(pairs[1..])
  }

  function ParseEpochParam(raw: Option<string>): Option<string> {
    match raw
    case None => None
    case Some(q) => FirstEpoch(Split(q, '&'))
  }

  datatype Refusal = EpochMismatch | EpochMissing

  function EpochGate(epoch: string, raw: Option<string>): Option<Refusal> {
    match ParseEpochParam(raw)
    case Some(presented) => if presented == epoch then None else Some(EpochMismatch)
    case None => Some(EpochMissing)
  }

  datatype SyncRange = SyncRange(from: nat, upto: nat)

  /** The pairs read so far, then the rest: later values win, a pair without `=` spoils the query. */
  function ParsePairs(pairs: seq<string>, from: Option<nat>, upto: Option<nat>): (r: Option<SyncRange>)
    requires (from.Some? ==> from.value < TWO_64) && (upto.Some? ==> upto.value < TWO_64)
    ensures r.Some? ==> r.value.from < TWO_64 && r.value.upto < TWO_64
    decreases |pairs|
  {
    if pairs == [] then
      if from.Some? && upto.Some? then Some(SyncRange(from.value, upto.value)) else None
    else if pairs[0] == "" then ParsePairs(pairs[1..], from, upto)
    else
      var p := pairs[0];
      var i := IndexOf(p, '=');
      if i == |p| then None
      else if p[..i] == "from" then ParsePairs(pairs[1..], ParseU64(p[i + 1..]), upto)
      else if p[..i] == "to" then ParsePairs(pairs[1..], from, ParseU64(p[i + 1..]))
      else ParsePairs(pairs[1..], from, upto)
  }

  function ParseSyncQuery(q: string): (r: Option<SyncRange>)
    ensures r.Some? ==> r.value.from < TWO_64 && r.value.upto < TWO_64
  {
    ParsePairs(Split(q, '&'), None, None)
  }

  method ParseSyncQueryLoop(q: string) returns (r: Option<SyncRange>)
    ensures r == ParseSyncQuery(q)
  {
    hide ParseU64, IndexOf, Split;
    var from: Option<nat>, upto: Option<nat> := None, None;
    var pairs := Split(q, '&');
    for i := 0 to |pairs|
      invariant (from.Some? ==> from.value < TWO_64) && (upto.Some? ==> upto.value < TWO_64)
      invariant ParsePairs(pairs[i..], from, upto) == ParseSyncQuery(q)
    {
      assert pairs[i..][0] == pairs[i] && pairs[i..][1..] == pairs[i + 1..];
      var pair := pairs[i];
      if pair != "" {
        var eq := IndexOf(pair, '=');
        if eq == |pair| {
          return None;
        }
        if pair[..eq] == "from" {
          from := ParseU64(pair[eq + 1..]);
        } else if pair[..eq] == "to" {
          upto := ParseU64(pair[eq + 1..]);
        }
      }
    }
    assert pairs[|pairs|..] == [];
    if from.Some? && upto.Some? {
      return Some(SyncRange(from.value, upto.value));
    }
    return None;
  }

  // ----- What clients send -----

  function Pair(key: string, value: string): string {
    key + "=" + value
  }

  /** The query string of the client. */
  function ClientQuery(from: nat, upto: nat, epoch: string): string {
    Pair("from", Decimal(from)) + "&" + (Pair("to", Decimal(upto)) + "&" + Pair("epoch", epoch))
  }

  lemma {:induction false} IndexOfFirst(a: string, sep: char, b: string)
    requires sep !in a
    ensures IndexOf(a + [sep] + b, sep) == |a|
    ensures IndexOf(a, sep) == |a|
  {
    var s := a + [sep] + b;
    assert s[|a|] == sep;
    forall k | 0 <= k < |a| ensures s[k] != sep {
      assert s[k] in a;
    }
  }

  lemma SplitHead(a: string, sep: char, b: string)
    requires sep !in a
    ensures Split(a + [sep] + b, sep) == [a] + Split(b, sep)
    ensures Split(a, sep) == [a]
  {
    hide IndexOf;
    IndexOfFirst(a, sep, b);
    var s := a + [sep] + b;
    assert s[..|a|] == a && s[|a| + 1..] == b;
  }

  lemma PairParts(key: string, value: string)
    requires '=' !in key
    ensures var p := Pair(key, value);
      IndexOf(p, '=') == |key| && p[..|key|] == key && p[|key| + 1..] == value && p != ""
  {
    hide IndexOf;
    IndexOfFirst(key, '=', value);
    assert Pair(key, value) == key + ['='] + value;
  }

  lemma NoAmpersand(key: string, value: string)
    requires '&' !in key && '&' !in value
    ensures '&' !in Pair(key, value)
  {
  }

  lemma DigitsHaveNone(n: nat)
    ensures '&' !in Decimal(n)
  {
    assert !IsDigit('&');
  }

  lemma ThreeWaySplit(a: string, b: string, c: string)
    requires '&' !in a && '&' !in b && '&' !in c
    ensures Split(a + "&" + (b + "&" + c), '&') == [a, b, c]
  {
    hide Split;
    var tail := b + ['&'] + c;
    assert a + "&" + (b + "&" + c) == a + ['&'] + tail;
    SplitHead(c, '&', "");
    SplitHead(b, '&', c);
    SplitHead(a, '&', tail);
    assert [a] + ([b] + [c]) == [a, b, c];
  }

  /** One well-formed pair at the head of the query, read by either parser. */
  lemma ReadPair(key: string, value: string, rest: seq<string>, from: Option<nat>, upto: Option<nat>)
    requires '=' !in key
    requires (from.Some? ==> from.value < TWO_64) && (upto.Some? ==> upto.value < TWO_64)
    ensures FirstEpoch([Pair(key, value)] + rest) == if key == "epoch" then Some(value) else FirstEpoch(rest)
    ensures ParsePairs([Pair(key, value)] + rest, from, upto) ==
      if key == "from" then ParsePairs(rest, ParseU64(value), upto)
      else if key == "to" then ParsePairs(rest, from, ParseU64(value))
      else ParsePairs(rest, from, upto)
  {
    hide IndexOf, ParseU64;
    PairParts(key, value);
    var pairs := [Pair(key, value)] + rest;
    assert pairs[0] == Pair(key, value) && pairs[1..] == rest;
  }

  lemma ThreePairs(f: string, t: string, epoch: string, from: nat, upto: nat)
    requires ParseU64(f) == Some(from) && ParseU64(t) == Some(upto)
    ensures ParsePairs([Pair("from", f), Pair("to", t), Pair("epoch", epoch)], None, None) == Some(SyncRange(from, upto))
    ensures FirstEpoch([Pair("from", f), Pair("to", t), Pair("epoch", epoch)]) == Some(epoch)
  {
    hide FirstEpoch, ParseU64, Pair;
    var a, b, c := Pair("from", f), Pair("to", t), Pair("epoch", epoch);
    assert "from"[0] == 'f' && "to"[0] == 't' && "epoch"[0] == 'e';
    ReadPair("from", f, [b, c], None, None);
    ReadPair("to", t, [c], Some(from), None);
    ReadPair("epoch", epoch, [], Some(from), Some(upto));
    assert [a] + [b, c] == [a, b, c] && [b] + [c] == [b, c] && [c] + [] == [c];
  }

  /** The server reads a client's request as what the client meant, and lets it through exactly for its own lineage. */
  lemma RequestUnderstood(from: nat, upto: nat, epoch: string, served: string)
    requires from < TWO_64 && upto < TWO_64 && '&' !in epoch
    ensures ParseSyncQuery(ClientQuery(from, upto, epoch)) == Some(SyncRange(from, upto))
    ensures EpochGate(served, Some(ClientQuery(from, upto, epoch))) == if epoch == served then None else Some(EpochMismatch)
  {
    hide Split, FirstEpoch, ParsePairs, Decimal, ParseU64, Pair;
    DigitsHaveNone(from);
    DigitsHaveNone(upto);
    NoAmpersand("from", Decimal(from));
    NoAmpersand("to", Decimal(upto));
    NoAmpersand("epoch", epoch);
    ThreeWaySplit(Pair("from", Decimal(from)), Pair("to", Decimal(upto)), Pair("epoch", epoch));
    DecimalParses(from);
    DecimalParses(upto);
    ThreePairs(Decimal(from), Decimal(upto), epoch, from, upto);
  }

  // ----- The handler -----

  datatype SyncReply = Conflict(refusal: Refusal) | BadRequest | OutOfWindow | Span(delta: BlockDelta)

  method Sync(node: NodeState, epoch: string, raw: Option<string>) returns (reply: SyncReply)
    requires node.Valid()
    ensures EpochGate(epoch, raw).Some? <==> reply.Conflict?
    ensures EpochGate(epoch, raw).None? && ParseSyncQuery(raw.value).None? ==> reply == BadRequest
    ensures EpochGate(epoch, raw).None? && ParseSyncQuery(raw.value).Some? ==>
      var range := ParseSyncQuery(raw.value).value;
      var selected := Selected(node.ring.buf, range.from, range.upto);
      && (reply.Span? <==> range.from < range.upto && Covers(node.ring.buf, range.from, range.upto) && Addable(selected))
      && (reply.Span? ==> IsCoalesced(selected, reply.delta) && reply.delta.block == range.upto)
      && (!reply.Span? ==> reply == OutOfWindow)
  {
    hide ParseSyncQuery, ParseEpochParam, Selected, Covers, Addable, IsCoalesced;
    var refusal := EpochGate(epoch, raw);
    if refusal.Some? {
      return Conflict(refusal.value);
    }
    GatePassedHasQuery(epoch, raw);
    var range := ParseSyncQueryLoop(raw.value);
    if range.None? {
      return BadRequest;
    }
    var delta := node.Sync(range.value.from, range.value.upto);
    return match delta case Some(d) => Span(d) case None => OutOfWindow;
  }

  lemma GatePassedHasQuery(epoch: string, raw: Option<string>)
    requires EpochGate(epoch, raw).None?
    ensures raw.Some?
  {
  }

  // ----- Any query string -----

  function Join(parts: seq<string>, sep: char): string
    requires parts != []
  {
    if |parts| == 1 then parts[0] else parts[0] + [sep] + Join(parts[1..], sep)
  }

  /** The pieces contain no separator, and put together with it they are the string. */
  lemma {:induction false} SplitIsWhole(s: string, sep: char)
    ensures Join(Split(s, sep), sep) == s && forall p :: p in Split(s, sep) ==> sep !in p
    decreases |s|
  {
    hide IndexOf;
    var i := IndexOf(s, sep);
    var head := if i == |s| then s else s[..i];
    assert sep !in head;
    if i < |s| {
      SplitIsWhole(s[i + 1..], sep);
      var rest := Split(s[i + 1..], sep);
      assert Split(s, sep) == [head] + rest && ([head] + rest)[1..] == rest;
      assert head + [sep] + s[i + 1..] == s;
    }
  }

  /** The pair is `<key>=...`. */
  predicate HasKey(p: string, key: string) {
    |p| > |key| && p[..|key|] == key && p[|key|] == '='
  }

  lemma KeyOf(p: string, key: string)
    requires '=' !in key
    ensures HasKey(p, key) <==> IndexOf(p, '=') < |p| && p[..IndexOf(p, '=')] == key
    ensures HasKey(p, key) ==> IndexOf(p, '=') == |key|
    ensures IndexOf(p, '=') == |p| <==> '=' !in p
  {
    hide IndexOf;
    var i := IndexOf(p, '=');
    if HasKey(p, key) {
      assert forall k :: 0 <= k < |key| ==> p[k] == p[..|key|][k] && p[..|key|][k] in key;
    }
    if i < |p| {
      assert p[i] in p;
    }
  }

  lemma {:induction false} FirstEpochIs(pairs: seq<string>)
    ensures (forall p :: p in pairs ==> !HasKey(p, "epoch")) ==> FirstEpoch(pairs) == None
    ensures forall i :: 0 <= i < |pairs| && HasKey(pairs[i], "epoch") && (forall k :: 0 <= k < i ==> !HasKey(pairs[k], "epoch")) ==>
      FirstEpoch(pairs) == Some(pairs[i][6..])
  {
    if pairs != [] {
      FirstEpochStep(pairs);
      hide FirstEpoch, HasKey;
      FirstEpochIs(pairs[1..]);
      assert pairs[0] in pairs && forall p :: p in pairs[1..] ==> p in pairs;
      forall i | 0 <= i < |pairs| && HasKey(pairs[i], "epoch") && forall k :: 0 <= k < i ==> !HasKey(pairs[k], "epoch")
        ensures FirstEpoch(pairs) == Some(pairs[i][6..])
      {
        if i > 0 {
          assert pairs[1..][i - 1] == pairs[i] && forall k :: 0 <= k < i - 1 ==> pairs[1..][k] == pairs[k + 1];
        }
      }
    }
  }

  lemma FirstEpochStep(pairs: seq<string>)
    requires pairs != []
    ensures FirstEpoch(pairs) == if HasKey(pairs[0], "epoch") then Some(pairs[0][6..]) else FirstEpoch(pairs[1..])
  {
    KeyOf(pairs[0], "epoch");
    hide IndexOf, HasKey;
  }

  /** A request that names no lineage is refused as such. */
  lemma NoEpochIsMissing(epoch: string, raw: Option<string>)
    requires raw.Some? ==> forall p :: p in Split(raw.value, '&') ==> !HasKey(p, "epoch")
    ensures EpochGate(epoch, raw) == Some(EpochMissing)
  {
    if raw.Some? {
      FirstEpochIs(Split(raw.value, '&'));
    }
  }

  /** Otherwise the first lineage it names decides. */
  lemma FirstEpochDecides(epoch: string, q: string, i: nat)
    requires i < |Split(q, '&')| && HasKey(Split(q, '&')[i], "epoch")
    requires forall k :: 0 <= k < i ==> !HasKey(Split(q, '&')[k], "epoch")
    ensures EpochGate(epoch, Some(q)) == if Split(q, '&')[i][6..] == epoch then None else Some(EpochMismatch)
  {
    hide FirstEpoch, Split;
    FirstEpochIs(Split(q, '&'));
  }

  /** The value of the last pair with this key. */
  function LastValue(pairs: seq<string>, key: string): Option<string> {
    if pairs == [] then None
    else if HasKey(pairs[|pairs| - 1], key) then Some(pairs[|pairs| - 1][|key| + 1..])
    else LastValue(pairs[..|pairs| - 1], key)
  }

  /** What a number parameter comes to: the last value given, if it parses; else what was known before. */
  function Known(pairs: seq<string>, key: string, before: Option<nat>): (n: Option<nat>)
    requires before.Some? ==> before.value < TWO_64
    ensures n.Some? ==> n.value < TWO_64
  {
    match LastValue(pairs, key)
    case Some(v) => ParseU64(v)
    case None => before
  }

  predicate WellPaired(pairs: seq<string>) {
    forall p :: p in pairs ==> p == "" || '=' in p
  }

  lemma {:induction false} LastAfterFirst(p: string, rest: seq<string>, key: string)
    ensures LastValue([p] + rest, key) ==
      if LastValue(rest, key).Some? then LastValue(rest, key) else if HasKey(p, key) then Some(p[|key| + 1..]) else None
  {
    hide HasKey;
    if rest == [] {
      assert [p] + rest == [p] && [p][..0] == [];
    } else {
      var n := |rest| - 1;
      assert ([p] + rest)[..n + 1] == [p] + rest[..n] && ([p] + rest)[n + 1] == rest[n];
      LastAfterFirst(p, rest[..n], key);
    }
  }

  /** What one more pair at the front does. */
  lemma OnePair(p: string, rest: seq<string>, from: Option<nat>, upto: Option<nat>)
    requires (from.Some? ==> from.value < TWO_64) && (upto.Some? ==> upto.value < TWO_64)
    ensures ParsePairs([p] + rest, from, upto) ==
      if p == "" then ParsePairs(rest, from, upto)
      else if '=' !in p then None
      else if HasKey(p, "from") then ParsePairs(rest, ParseU64(p[5..]), upto)
      else if HasKey(p, "to") then ParsePairs(rest, from, ParseU64(p[3..]))
      else ParsePairs(rest, from, upto)
  {
    hide IndexOf, ParseU64, HasKey;
    KeyOf(p, "from");
    KeyOf(p, "to");
    var pairs := [p] + rest;
    assert pairs[0] == p && pairs[1..] == rest;
  }

  lemma KeysDiffer(p: string)
    ensures !(HasKey(p, "from") && HasKey(p, "to")) && !HasKey("", "from") && !HasKey("", "to")
  {
    assert "from"[0] != "to"[0];
  }

  lemma {:induction false} PairsMeaning(pairs: seq<string>, from: Option<nat>, upto: Option<nat>)
    requires (from.Some? ==> from.value < TWO_64) && (upto.Some? ==> upto.value < TWO_64)
    ensures ParsePairs(pairs, from, upto) ==
      if WellPaired(pairs) && Known(pairs, "from", from).Some? && Known(pairs, "to", upto).Some?
      then Some(SyncRange(Known(pairs, "from", from).value, Known(pairs, "to", upto).value)) else None
    decreases |pairs|
  {
    if pairs == [] {
      assert WellPaired(pairs);
    } else {
      hide ParseU64, HasKey, ParsePairs, Known, WellPaired;
      var p, rest := pairs[0], pairs[1..];
      assert pairs == [p] + rest;
      KnownAfterFirst(p, rest, "from", from);
      KnownAfterFirst(p, rest, "to", upto);
      OnePair(p, rest, from, upto);
      KeysDiffer(p);
      WellAfterFirst(p, rest);
      PairsMeaning(rest, if HasKey(p, "from") then ParseU64(p[5..]) else from, if HasKey(p, "to") then ParseU64(p[3..]) else upto);
    }
  }

  lemma KnownAfterFirst(p: string, rest: seq<string>, key: string, before: Option<nat>)
    requires before.Some? ==> before.value < TWO_64
    ensures Known([p] + rest, key, before) == Known(rest, key, if HasKey(p, key) then ParseU64(p[|key| + 1..]) else before)
  {
    hide ParseU64, HasKey, LastValue;
    LastAfterFirst(p, rest, key);
  }

  lemma WellAfterFirst(p: string, rest: seq<string>)
    ensures WellPaired([p] + rest) <==> (p == "" || '=' in p) && WellPaired(rest)
  {
    assert p in [p] + rest && forall r :: r in rest ==> r in [p] + rest;
  }

  /** A query is understood exactly when every pair that is not empty has its `=`, and the last `from` and the last `to` are numbers. */
  lemma QueryMeaning(q: string)
    ensures var pairs := Split(q, '&');
      ParseSyncQuery(q) ==
        if WellPaired(pairs) && Known(pairs, "from", None).Some? && Known(pairs, "to", None).Some?
        then Some(SyncRange(Known(pairs, "from", None).value, Known(pairs, "to", None).value)) else None
  {
    hide Split;
    PairsMeaning(Split(q, '&'), None, None);
  }
}
