/** Which configuration path the name of an environment variable addresses (core/settings.py). */
module EnvironmentNames {
  import opened Wrappers
  import opened SettingsLayers
  import opened EnvironmentLayer

  /** "__".join(segments) */
  function Joined(segments: seq<string>): string
    requires segments != []
  {
    if |segments| == 1 then segments[0] else segments[0] + "__" + Joined(segments[1..])
  }

  /** No segment holds the delimiter, and none before the last could lend the delimiter its first character. */
  predicate Separable(segments: seq<string>) {
    && (forall k, i :: 0 <= k < |segments| && 0 <= i < |segments[k]| - 1 ==>
          segments[k][i] != '_' || segments[k][i + 1] != '_')
    && forall k :: 0 <= k < |segments| - 1 && segments[k] != "" ==> segments[k][|segments[k]| - 1] != '_'
  }

  /* ---------- Splitting is the inverse of joining ---------- */

  lemma {:induction false} SplitMeaning(s: string)
    ensures Joined(SplitDelimiter(s)) == s && Separable(SplitDelimiter(s))
  {
    var segments := SplitDelimiter(s);
    if |s| < 2 {
    } else if s[0] == '_' && s[1] == '_' {
      var rest := SplitDelimiter(s[2..]);
      SplitMeaning(s[2..]);
      assert segments[1..] == rest;
      assert s == "__" + s[2..];
      PrependEmpty(rest);
    } else {
      var rest := SplitDelimiter(s[1..]);
      SplitMeaning(s[1..]);
      assert segments[1..] == rest[1..];
      assert s == [s[0]] + s[1..];
      JoinedHead(s[0], rest);
      FirstCharacter(rest);
      PrependCharacter(s[0], rest);
    }
  }

  lemma PrependEmpty(rest: seq<string>)
    requires rest != [] && Separable(rest)
    ensures Separable([""] + rest)
  {
    var segments := [""] + rest;
    forall k, i | 0 <= k < |segments| && 0 <= i < |segments[k]| - 1
      ensures segments[k][i] != '_' || segments[k][i + 1] != '_'
    {
      assert segments[k] == rest[k - 1];
    }
    forall k | 0 <= k < |segments| - 1 && segments[k] != "" ensures segments[k][|segments[k]| - 1] != '_' {
      assert segments[k] == rest[k - 1];
    }
  }

  lemma JoinedHead(c: char, rest: seq<string>)
    requires rest != []
    ensures Joined([[c] + rest[0]] + rest[1..]) == [c] + Joined(rest)
  {
    var segments := [[c] + rest[0]] + rest[1..];
    assert segments[1..] == rest[1..];
    if |rest| > 1 {
      assert ([c] + rest[0]) + "__" + Joined(rest[1..]) == [c] + (rest[0] + "__" + Joined(rest[1..]));
    }
  }

  /** The joined text starts with the first segment, and with the delimiter if that is empty and not the last. */
  lemma FirstCharacter(rest: seq<string>)
    requires rest != []
    ensures rest[0] != "" ==> Joined(rest) != "" && Joined(rest)[0] == rest[0][0]
    ensures rest[0] == "" && |rest| > 1 ==> Joined(rest) != "" && Joined(rest)[0] == '_'
  {
  }

  lemma PrependCharacter(c: char, rest: seq<string>)
    requires rest != [] && Separable(rest) && Joined(rest) != ""
    requires c != '_' || Joined(rest)[0] != '_'
    ensures Separable([[c] + rest[0]] + rest[1..])
  {
    hide Joined;
    FirstCharacter(rest);
    var segments := [[c] + rest[0]] + rest[1..];
    forall k, i | 0 <= k < |segments| && 0 <= i < |segments[k]| - 1
      ensures segments[k][i] != '_' || segments[k][i + 1] != '_'
    {
      if k == 0 {
        assert i > 0 ==> segments[0][i] == rest[0][i - 1];
        assert segments[0][i + 1] == rest[0][i];
      } else {
        assert segments[k] == rest[k];
      }
    }
    forall k | 0 <= k < |segments| - 1 && segments[k] != "" ensures segments[k][|segments[k]| - 1] != '_' {
      if k == 0 {
        assert rest[0] != "" ==> segments[0][|segments[0]| - 1] == rest[0][|rest[0]| - 1];
      } else {
        assert segments[k] == rest[k];
      }
    }
  }

  lemma {:induction false} SplitJoined(segments: seq<string>)
    requires segments != [] && Separable(segments)
    ensures SplitDelimiter(Joined(segments)) == segments
    decreases |Joined(segments)|
  {
    var s := Joined(segments);
    if segments[0] == "" {
      if |segments| > 1 {
        assert s == "__" + Joined(segments[1..]);
        assert s[2..] == Joined(segments[1..]);
        TailSeparable(segments);
        SplitJoined(segments[1..]);
        assert segments == [""] + segments[1..];
      }
    } else {
      var rest := [segments[0][1..]] + segments[1..];
      assert rest[0] == segments[0][1..] && rest[1..] == segments[1..];
      assert segments[0] == [segments[0][0]] + rest[0];
      assert segments == [[segments[0][0]] + rest[0]] + rest[1..];
      JoinedHead(segments[0][0], rest);
      assert s[1..] == Joined(rest);
      ShorterSeparable(segments);
      SplitJoined(rest);
      if |s| < 2 {
        assert segments[0] == [segments[0][0]];
      } else {
        FirstCharacter(rest);
        assert s[1] == Joined(rest)[0];
        assert |segments[0]| > 1 ==> segments[0][0] != '_' || segments[0][1] != '_';
        assert |segments| > 1 && |segments[0]| == 1 ==> segments[0][0] != '_';
      }
    }
  }

  lemma TailSeparable(segments: seq<string>)
    requires segments != [] && Separable(segments)
    ensures Separable(segments[1..])
  {
    var rest := segments[1..];
    forall k, i | 0 <= k < |rest| && 0 <= i < |rest[k]| - 1 ensures rest[k][i] != '_' || rest[k][i + 1] != '_' {
      assert rest[k] == segments[k + 1];
    }
    forall k | 0 <= k < |rest| - 1 && rest[k] != "" ensures rest[k][|rest[k]| - 1] != '_' {
      assert rest[k] == segments[k + 1];
    }
  }

  lemma ShorterSeparable(segments: seq<string>)
    requires segments != [] && segments[0] != "" && Separable(segments)
    ensures Separable([segments[0][1..]] + segments[1..])
  {
    var rest := [segments[0][1..]] + segments[1..];
    forall k, i | 0 <= k < |rest| && 0 <= i < |rest[k]| - 1 ensures rest[k][i] != '_' || rest[k][i + 1] != '_' {
      if k == 0 {
        assert rest[0][i] == segments[0][i + 1] && rest[0][i + 1] == segments[0][i + 2];
      } else {
        assert rest[k] == segments[k];
      }
    }
    forall k | 0 <= k < |rest| - 1 && rest[k] != "" ensures rest[k][|rest[k]| - 1] != '_' {
      if k == 0 {
        assert rest[0][|rest[0]| - 1] == segments[0][|segments[0]| - 1];
      } else {
        assert rest[k] == segments[k];
      }
    }
  }

  /** Of all ways to write a text as segments joined by the delimiter, splitting finds the leftmost. */
  lemma SplitExactly(s: string, segments: seq<string>)
    requires segments != []
    ensures SplitDelimiter(s) == segments <==> Joined(segments) == s && Separable(segments)
  {
    hide SplitDelimiter, Joined, Separable;
    SplitMeaning(s);
    if Joined(segments) == s && Separable(segments) {
      SplitJoined(segments);
    }
  }

  /* ---------- Folding to lower case ---------- */

  function LowerAll(segments: seq<string>): (r: seq<string>)
    ensures |r| == |segments| && forall k :: 0 <= k < |r| ==> r[k] == Lower(segments[k])
  {
    seq(|segments|, i requires 0 <= i < |segments| => Lower(segments[i]))
  }

  lemma LowerConcat(a: string, b: string)
    ensures Lower(a + b) == Lower(a) + Lower(b)
  {
  }

  lemma {:induction false} LowerJoined(segments: seq<string>)
    requires segments != []
    ensures Joined(LowerAll(segments)) == Lower(Joined(segments))
  {
    if |segments| > 1 {
      LowerJoined(segments[1..]);
      assert LowerAll(segments)[1..] == LowerAll(segments[1..]);
      LowerConcat(segments[0] + "__", Joined(segments[1..]));
      LowerConcat(segments[0], "__");
      assert Lower("__") == "__";
    }
  }

  lemma LowerSeparable(segments: seq<string>)
    requires Separable(segments)
    ensures Separable(LowerAll(segments))
  {
    var lower := LowerAll(segments);
    forall k, i | 0 <= k < |lower| && 0 <= i < |lower[k]| - 1 ensures lower[k][i] != '_' || lower[k][i + 1] != '_' {
      assert segments[k][i] != '_' || segments[k][i + 1] != '_';
    }
    forall k | 0 <= k < |lower| - 1 && lower[k] != "" ensures lower[k][|lower[k]| - 1] != '_' {
      assert segments[k][|segments[k]| - 1] != '_';
    }
  }

  /** The path of a variable is the splitting of the folded remainder of its name. */
  lemma PathSplits(key: string)
    requires VariablePath(key).Some?
    ensures VariablePath(key).value == SplitDelimiter(Lower(key[17..]))
  {
    var segments := SplitDelimiter(key[|ENV_PREFIX|..]);
    SplitMeaning(key[17..]);
    LowerJoined(segments);
    LowerSeparable(segments);
    assert VariablePath(key).value == LowerAll(segments);
    SplitExactly(Lower(key[17..]), LowerAll(segments));
  }

  /**
   * A variable is configuration exactly when it carries the prefix and does not name the configuration file. Its path
   * is then the one list of segments without capital letters that, joined by "__", spells the rest of the name up to
   * the case of its letters, with no "__" inside a segment and no "_" at the end of any but the last.
   */
  lemma PathOnCharacters(key: string, path: Path)
    requires path != []
    ensures VariablePath(key).Some? <==> "SPORTS_ANALYTICS_" <= key && key != "SPORTS_ANALYTICS_CONFIG_PATH"
    ensures VariablePath(key) == Some(path) <==>
            && "SPORTS_ANALYTICS_" <= key && key != "SPORTS_ANALYTICS_CONFIG_PATH"
            && |Joined(path)| == |key| - 17
            && (forall i :: 0 <= i < |Joined(path)| ==>
                  var (c, d) := (Joined(path)[i], key[17 + i]);
                  if 'A' <= d <= 'Z' then c as int == d as int + 32 else c == d)
            && (forall k, i :: 0 <= k < |path| && 0 <= i < |path[k]| - 1 ==> path[k][i] != '_' || path[k][i + 1] != '_')
            && forall k :: 0 <= k < |path| - 1 && path[k] != "" ==> path[k][|path[k]| - 1] != '_'
    ensures VariablePath(key) == Some(path) ==>
              forall k, i :: 0 <= k < |path| && 0 <= i < |path[k]| ==> !('A' <= path[k][i] <= 'Z')
  {
    hide SplitDelimiter, Joined;
    if "SPORTS_ANALYTICS_" <= key && key != "SPORTS_ANALYTICS_CONFIG_PATH" {
      PathSplits(key);
      SplitExactly(Lower(key[17..]), path);
      var s, t := Joined(path), Lower(key[17..]);
      assert s == t <==> |s| == |t| && forall i :: 0 <= i < |s| ==> s[i] == t[i];
      assert forall i :: 0 <= i < |t| ==> key[17..][i] == key[17 + i];
    }
  }

  lemma SqliteSplits()
    ensures SplitDelimiter("storage__sqlite_path") == ["storage", "sqlite_path"]
  {
    hide SplitDelimiter;
    var path := ["storage", "sqlite_path"];
    assert Joined(path) == "storage__sqlite_path" by {
      assert path[1..] == ["sqlite_path"];
    }
    SplitExactly("storage__sqlite_path", path);
  }

  lemma SqliteFolds()
    ensures Lower("STORAGE__SQLITE_PATH") == "storage__sqlite_path"
  {
    assert Lower("STORAGE_") == "storage_";
    assert Lower("_SQLITE_") == "_sqlite_";
    assert Lower("PATH") == "path";
    LowerConcat("STORAGE_", "_SQLITE_");
    LowerConcat("STORAGE_" + "_SQLITE_", "PATH");
  }

  /** SPORTS_ANALYTICS_STORAGE__SQLITE_PATH sets storage.sqlite_path. */
  lemma SqlitePath()
    ensures VariablePath("SPORTS_ANALYTICS_STORAGE__SQLITE_PATH") == Some(["storage", "sqlite_path"])
  {
    hide SplitDelimiter, Lower;
    var key := "SPORTS_ANALYTICS_STORAGE__SQLITE_PATH";
    assert key == "SPORTS_ANALYTICS_" + "STORAGE__SQLITE_PATH";
    assert |key| == 37 && |CONFIG_PATH_ENV_VAR| == 28;
    SqliteFolds();
    SqliteSplits();
    PathSplits(key);
  }
}
