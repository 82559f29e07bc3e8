/**
 * The URL-fragment option parser (routing.js). At load time the fragment, minus one leading
 * `#`, is split on `/`; every segment is either a `key:value` pair (when the regular expression
 * `^(.+):(.+)$` matches it) or a bare flag stored as `true`. Segments are stored in order into the
 * exported dictionary, so a later segment with the same key overwrites an earlier one.
 */
module Routing {
  import opened Wrappers
  import Text

  /** A value of the exported dictionary: a string from a pair, or `true` from a flag. */
  datatype Value = Str(s: string) | Flag

  /** Reading `routing[key]` from the exported dictionary. */
  function Lookup(options: map<string, Value>, key: string): Option<Value>
  {
    if key in options then Some(options[key]) else None
  }

  /** JavaScript truthiness of reading an option: undefined and "" are falsy, `true` is truthy. */
  function Truthy(v: Option<Value>): bool
  {
    match v
    case None => false
    case Some(Flag) => true
    case Some(Str(s)) => s != ""
  }

  /** `hash.replace(/^#/, '')`: the fragment without its first character when that is `#`. */
  function StripHash(hash: string): (r: string)
    ensures r == hash || "#" + r == hash
    ensures r != hash <==> |hash| > 0 && hash[0] == '#'
  {
    if |hash| > 0 && hash[0] == '#' then hash[1..] else hash
  }

  /** The segments the parser visits, in order. */
  function Segments(hash: string): (segs: seq<string>)
    ensures |segs| >= 1
    ensures Text.Join(segs, '/') == StripHash(hash)
    ensures forall i :: 0 <= i < |segs| ==> '/' !in segs[i]
  {
    Text.Split(StripHash(hash), '/')
  }

  /** The characters the regular-expression wildcard `.` does not match. */
  predicate IsLineTerminator(c: char)
  {
    c == '\n' || c == '\r' || c == '\U{2028}' || c == '\U{2029}'
  }

  predicate NoLineTerminator(x: string)
  {
    forall i :: 0 <= i < |x| ==> !IsLineTerminator(x[i])
  }

  /**
   * The pattern `^(.+):(.+)$` can match `x` with its literal colon at index `i`: at least one
   * character on each side, and every character is one that `.` matches.
   */
  predicate SplitsAt(x: string, i: int)
  {
    NoLineTerminator(x) && 1 <= i < |x| - 1 && x[i] == ':'
  }

  /** The largest index below `n` at which the pattern can split `x`. */
  function LastSplit(x: string, n: nat): (r: Option<nat>)
    requires n <= |x|
    ensures r.Some? ==> r.value < n && SplitsAt(x, r.value)
    ensures r.Some? ==> forall j :: r.value < j < n ==> !SplitsAt(x, j)
    ensures r.None? ==> forall j :: 0 <= j < n ==> !SplitsAt(x, j)
  {
    if n == 0 then None
    else if SplitsAt(x, n - 1) then Some(n - 1)
    else LastSplit(x, n - 1)
  }

  /**
   * `x.match(/^(.+):(.+)$/)`, as its two groups. The first group is greedy, so the match uses the
   * LAST colon that leaves a character on both sides.
   */
  function MatchPair(x: string): (r: Option<(string, string)>)
    ensures r.None? <==> forall i :: 0 <= i < |x| ==> !SplitsAt(x, i)
    ensures r.Some? ==> |r.value.0| >= 1 && |r.value.1| >= 1
    ensures r.Some? ==> x == r.value.0 + ":" + r.value.1 && SplitsAt(x, |r.value.0|)
    ensures r.Some? ==> forall j :: |r.value.0| < j < |x| ==> !SplitsAt(x, j)
  {
    match LastSplit(x, |x|)
    case None => None
    case Some(i) =>
      assert x == x[..i] + ":" + x[i + 1..];
      Some((x[..i], x[i + 1..]))
  }

  /** The one dictionary entry a segment writes. */
  function Entry(segment: string): (e: (string, Value))
    ensures Truthy(Some(e.1))
  {
    match MatchPair(segment)
    case Some((key, value)) => (key, Str(value))
    case None => (segment, Flag)
  }

  /** The dictionary after storing the entries of `segs` in order into an empty one. */
  function Collect(segs: seq<string>): map<string, Value>
  {
    if |segs| == 0 then map[]
    else
      var e := Entry(segs[|segs| - 1]);
      Collect(segs[..|segs| - 1])[e.0 := e.1]
  }

  /** Storing one more segment writes its entry over the previous dictionary. */
  lemma CollectSnoc(segs: seq<string>, segment: string)
    ensures Collect(segs + [segment]) == Collect(segs)[Entry(segment).0 := Entry(segment).1]
  {
    assert (segs + [segment])[..|segs|] == segs;
  }

  /** The exported options for a given `location.hash`. */
  function Options(hash: string): map<string, Value>
  {
    Collect(Segments(hash))
  }

  /** routing.js:4-15: the `forEach` loop that fills the exported dictionary. */
  method Parse(locationHash: string) returns (options: map<string, Value>)
    ensures options == Options(locationHash)
    ensures options.Keys == set i | 0 <= i < |Segments(locationHash)| :: Entry(Segments(locationHash)[i]).0
  {
    var segments := Text.Split(StripHash(locationHash), '/');
    options := map[];
    var i := 0;
    while i < |segments|
      invariant 0 <= i <= |segments|
      invariant options == Collect(segments[..i])
    {
      var pair := MatchPair(segments[i]);
      if pair.Some? {
        options := options[pair.value.0 := Str(pair.value.1)];
      } else {
        options := options[segments[i] := Flag];
      }
      assert segments[..i + 1][..i] == segments[..i];
      i := i + 1;
    }
    assert segments[..i] == segments;
    CollectKeys(segments);
  }

  /** Exactly the keys some segment writes are defined. */
  lemma {:induction false} CollectKeys(segs: seq<string>)
    ensures Collect(segs).Keys == set i | 0 <= i < |segs| :: Entry(segs[i]).0
  {
    if |segs| > 0 {
      var init := segs[..|segs| - 1];
      CollectKeys(init);
      var last := |segs| - 1;
      assert (set i | 0 <= i < |segs| :: Entry(segs[i]).0)
          == (set i | 0 <= i < |init| :: Entry(init[i]).0) + {Entry(segs[last]).0};
    }
  }

  /** A key is bound to the value of the last segment that writes it. */
  lemma {:induction false} CollectLastWins(segs: seq<string>, i: nat)
    requires i < |segs|
    requires forall j :: i < j < |segs| ==> Entry(segs[j]).0 != Entry(segs[i]).0
    ensures Entry(segs[i]).0 in Collect(segs)
    ensures Collect(segs)[Entry(segs[i]).0] == Entry(segs[i]).1
  {
    var init := segs[..|segs| - 1];
    if i < |segs| - 1 {
      assert init[i] == segs[i];
      forall j | i < j < |init| ensures Entry(init[j]).0 != Entry(init[i]).0 {
        assert init[j] == segs[j];
      }
      CollectLastWins(init, i);
    }
  }

  /** Every stored option reads as truthy: pair values are never empty. */
  lemma {:induction false} CollectTruthy(segs: seq<string>)
    ensures forall k :: k in Collect(segs) ==> Truthy(Some(Collect(segs)[k]))
  {
    if |segs| > 0 {
      CollectTruthy(segs[..|segs| - 1]);
    }
  }

  /** An option reads as truthy exactly when its key is defined. */
  lemma OptionDefinedIffTruthy(hash: string, key: string)
    ensures Truthy(Lookup(Options(hash), key)) <==> key in Options(hash)
  {
    CollectTruthy(Segments(hash));
  }

  /** An empty fragment, with or without its `#`, is one empty segment stored as a flag. */
  lemma EmptyFragment()
    ensures Options("") == map["" := Flag]
    ensures Options("#") == map["" := Flag]
  {
    assert Segments("") == [""];
    assert StripHash("#") == "";
  }

  /** Only ONE leading `#` is removed: a second one stays part of the first segment. */
  lemma OneHashRemoved(rest: string)
    ensures Segments("##" + rest) == Text.Split("#" + rest, '/')
  {
    assert ("##" + rest)[1..] == "#" + rest;
  }

  /** How the greedy pattern splits, or does not split, some typical segments. */
  lemma EntryExamples()
    ensures Entry("a:b:c") == ("a:b", Str("c"))
    ensures Entry("shader:cube") == ("shader", Str("cube"))
    ensures Entry("hd") == ("hd", Flag)
    ensures Entry("start") == ("start", Flag)
    ensures Entry("x:") == ("x:", Flag)
    ensures Entry(":x") == (":x", Flag)
    ensures Entry("x") == ("x", Flag)
  {
    assert SplitsAt("a:b:c", 3);
    assert "a:b:c"[..3] == "a:b";
    assert SplitsAt("shader:cube", 6);
    assert "shader:cube"[..6] == "shader";
    assert !SplitsAt("x:", 1);
  }
}
