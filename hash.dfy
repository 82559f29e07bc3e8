/**
 * How main.js writes the viewer's configuration back into the URL fragment (`setHash`) and reads
 * the shader selection from the parsed options, and the round trip between the two.
 */
module Hash {
  import opened Wrappers
  import Text
  import Routing
  import Shaders

  /** The array `setHash` pushes: the shader pair, then `start`, then `hd`. */
  function Parts(name: string, start: bool, hd: bool): seq<string>
  {
    ["shader:" + name] + (if start then ["start"] else []) + (if hd then ["hd"] else [])
  }

  /** The string `setHash` assigns to `location.hash`. */
  function HashString(name: string, start: bool, hd: bool): string
  {
    Text.Join(Parts(name, start, hd), '/')
  }

  /** `routing.shader || 'upstream'`, used as a property key (so the flag `true` reads as "true"). */
  function ShaderKey(options: map<string, Routing.Value>): string
  {
    match Routing.Lookup(options, "shader")
    case None => "upstream"
    case Some(Flag) => "true"
    case Some(Str(s)) => if s == "" then "upstream" else s
  }

  /** A shader name that survives being written into the fragment and parsed back. */
  predicate RoundTrips(name: string)
  {
    |name| > 0 && '/' !in name && ':' !in name && Routing.NoLineTerminator(name)
  }

  /** The parser sees exactly the pushed parts, in order. */
  lemma SegmentsOfHash(name: string, start: bool, hd: bool)
    requires '/' !in name
    ensures Routing.Segments("#" + HashString(name, start, hd)) == Parts(name, start, hd)
  {
    var parts := Parts(name, start, hd);
    forall i | 0 <= i < |parts| ensures '/' !in parts[i] {
      if i == 0 {
        assert parts[0] == "shader:" + name;
      }
    }
    Text.SplitJoin(parts, '/');
    assert ("#" + HashString(name, start, hd))[1..] == HashString(name, start, hd);
  }

  /** The shader segment parses as the pair `shader -> name`. */
  lemma ShaderEntry(name: string)
    requires RoundTrips(name)
    ensures Routing.Entry("shader:" + name) == ("shader", Routing.Str(name))
  {
    var x := "shader:" + name;
    assert forall i :: 0 <= i < |x| ==> !Routing.IsLineTerminator(x[i]) by {
      forall i | 0 <= i < |x| ensures !Routing.IsLineTerminator(x[i]) {
        if i >= 7 {
          assert x[i] == name[i - 7];
        }
      }
    }
    assert Routing.SplitsAt(x, 6);
    forall j | 6 < j < |x| ensures !Routing.SplitsAt(x, j) {
      assert x[j] == name[j - 7];
    }
    assert x[..6] == "shader" && x[7..] == name;
  }

  /**
   * Parsing `"#" + setHash(...)` defines `shader` as the name, `start` exactly when it was set and
   * `hd` exactly when it was set, and nothing else.
   */
  lemma {:induction false} RoundTrip(name: string, start: bool, hd: bool)
    requires RoundTrips(name)
    ensures Routing.Options("#" + HashString(name, start, hd))
         == map["shader" := Routing.Str(name)]
            + (if start then map["start" := Routing.Flag] else map[])
            + (if hd then map["hd" := Routing.Flag] else map[])
  {
    SegmentsOfHash(name, start, hd);
    ShaderEntry(name);
    assert Routing.Entry("start") == ("start", Routing.Flag) by {
      assert forall i :: 0 <= i < 5 ==> !Routing.SplitsAt("start", i);
    }
    assert Routing.Entry("hd") == ("hd", Routing.Flag) by {
      assert forall i :: 0 <= i < 2 ==> !Routing.SplitsAt("hd", i);
    }
    var first := ["shader:" + name];
    Routing.CollectSnoc([], "shader:" + name);
    assert [] + first == first;
    if start {
      Routing.CollectSnoc(first, "start");
      if hd {
        Routing.CollectSnoc(first + ["start"], "hd");
        assert Parts(name, start, hd) == first + ["start"] + ["hd"];
      } else {
        assert Parts(name, start, hd) == first + ["start"];
      }
    } else if hd {
      Routing.CollectSnoc(first, "hd");
      assert Parts(name, start, hd) == first + ["hd"];
    } else {
      assert Parts(name, start, hd) == first;
    }
  }

  /** Reloading the written fragment selects the same shader and the same flags. */
  lemma ReloadKeepsSelection(name: string, start: bool, hd: bool)
    requires RoundTrips(name)
    ensures ShaderKey(Routing.Options("#" + HashString(name, start, hd))) == name
    ensures Routing.Truthy(Routing.Lookup(Routing.Options("#" + HashString(name, start, hd)), "start")) == start
    ensures Routing.Truthy(Routing.Lookup(Routing.Options("#" + HashString(name, start, hd)), "hd")) == hd
  {
    RoundTrip(name, start, hd);
  }

  /** Every name of the registry round-trips. */
  lemma RegistryNamesRoundTrip(name: string)
    requires name in Shaders.Fragments
    ensures RoundTrips(name)
  {
  }

  /** A colon inside the name breaks the round trip: the greedy pattern splits at the later colon. */
  lemma ColonBreaksRoundTrip()
    ensures Routing.Options("#" + HashString("a:b", false, false)) == map["shader:a" := Routing.Str("b")]
  {
    var x := "shader:a:b";
    assert "shader:" + "a:b" == x;
    SegmentsOfHash("a:b", false, false);
    assert Routing.Segments("#" + HashString("a:b", false, false)) == [x];
    LaterColonWins();
    Routing.CollectSnoc([], x);
    assert [] + [x] == [x];
  }

  /** The segment written for the name "a:b" is split at its second colon. */
  lemma LaterColonWins()
    ensures Routing.Entry("shader:a:b") == ("shader:a", Routing.Str("b"))
  {
    var x := "shader:a:b";
    assert Routing.NoLineTerminator(x) by {
      forall i | 0 <= i < |x| ensures !Routing.IsLineTerminator(x[i]) {
        assert x[i] in "shader:ab";
      }
    }
    assert Routing.SplitsAt(x, 8);
    assert !Routing.SplitsAt(x, 9);
    assert Routing.LastSplit(x, 10) == Some(8);
    assert x[..8] == "shader:a" && x[9..] == "b";
  }
}
