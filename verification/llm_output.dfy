/**
 * `generate_json_from_user_input`: the chat model's answer is stripped,
 * every newline, backtick and `json` is deleted in one pass each, and the
 * rest is handed to `json.loads`.
 */
module LlmOutput {
  import opened Wrappers
  import opened Text

  /**
   * `.strip().replace("\n", "").replace("`", "").replace("json", "")`: the
   * result keeps the stripped text's order, has no newline or backtick, and
   * every character that none of the three patterns contains keeps its count.
   */
  function CleanJsonText(raw: string): (r: string)
    ensures '\n' !in r && '`' !in r
    ensures multiset(r) <= multiset(raw)
    ensures IsSubseq(r, Strip(raw))
    ensures forall c :: c !in "\n`json" ==> multiset(r)[c] == multiset(Strip(raw))[c]
  {
    var stripped := Strip(raw);
    var noNewlines := RemoveAll(stripped, "\n");
    var noTicks := RemoveAll(noNewlines, "`");
    var cleaned := RemoveAll(noTicks, "json");
    CleanedCharacters(raw, stripped, noNewlines, noTicks, cleaned);
    CleanedOrder(stripped, noNewlines, noTicks, cleaned);
    CleanedKeepsOthers(stripped, noNewlines, noTicks, cleaned);
    cleaned
  }

  /** The steps of `CleanJsonText`, one fact each. */
  lemma CleanedCharacters(raw: string, stripped: string, noNewlines: string, noTicks: string, cleaned: string)
    requires stripped == Strip(raw) && noNewlines == RemoveAll(stripped, "\n")
    requires noTicks == RemoveAll(noNewlines, "`") && cleaned == RemoveAll(noTicks, "json")
    ensures '\n' !in cleaned && '`' !in cleaned
    ensures multiset(cleaned) <= multiset(raw)
  {
    StripKeepsCharacters(raw);
    RemoveAllChar(stripped, '\n');
    RemoveAllChar(noNewlines, '`');
    RemoveAllShrinks(noTicks, "json");
    assert multiset(noTicks) <= multiset(noNewlines) <= multiset(stripped);
    assert '\n' !in noTicks by {
      assert multiset(noNewlines)['\n'] == 0;
    }
    assert multiset(cleaned)['\n'] == 0 && multiset(cleaned)['`'] == 0;
  }

  lemma CleanedOrder(stripped: string, noNewlines: string, noTicks: string, cleaned: string)
    requires noNewlines == RemoveAll(stripped, "\n")
    requires noTicks == RemoveAll(noNewlines, "`") && cleaned == RemoveAll(noTicks, "json")
    ensures IsSubseq(cleaned, stripped)
  {
    RemoveAllIsSubseq(stripped, "\n");
    RemoveAllIsSubseq(noNewlines, "`");
    RemoveAllIsSubseq(noTicks, "json");
    SubseqTrans(noTicks, noNewlines, stripped);
    SubseqTrans(cleaned, noTicks, stripped);
  }

  lemma CleanedKeepsOthers(stripped: string, noNewlines: string, noTicks: string, cleaned: string)
    requires noNewlines == RemoveAll(stripped, "\n")
    requires noTicks == RemoveAll(noNewlines, "`") && cleaned == RemoveAll(noTicks, "json")
    ensures forall c :: c !in "\n`json" ==> multiset(cleaned)[c] == multiset(stripped)[c]
  {
    forall c | c !in "\n`json"
      ensures multiset(cleaned)[c] == multiset(stripped)[c]
    {
      RemoveAllKeepsOthers(stripped, "\n", c);
      RemoveAllKeepsOthers(noNewlines, "`", c);
      RemoveAllKeepsOthers(noTicks, "json", c);
    }
  }

  /** Stripping only deletes characters. */
  lemma StripKeepsCharacters(s: string)
    ensures multiset(Strip(s)) <= multiset(s)
  {
    var t := StripStart(s);
    SuffixKeepsCharacters(s, t);
    PrefixKeepsCharacters(t, StripEnd(t));
  }

  lemma SuffixKeepsCharacters(s: string, t: string)
    requires |t| <= |s| && t == s[|s| - |t|..]
    ensures multiset(t) <= multiset(s)
  {
    assert s == s[..|s| - |t|] + t;
  }

  lemma PrefixKeepsCharacters(s: string, t: string)
    requires |t| <= |s| && t == s[..|t|]
    ensures multiset(t) <= multiset(s)
  {
    assert s == t + s[|t|..];
  }

  /** Why the JSON generation returns an error message instead of an object. */
  datatype GenerateError =
    | NotJson        // `json.JSONDecodeError`: "Failed to convert the AI result into a JSON object. ..."
    | RequestFailed  // any other exception: "Failed to generate JSON: ..."

  /**
   * The answer (`None` when the chat request raises) cleaned and parsed by
   * `loads`, a stand-in for `json.loads` that yields `None` on malformed text.
   * What is parsed is the answer's stripped text, in order, without newlines
   * or backticks.
   */
  function GenerateJson<J>(answer: Option<string>, loads: string -> Option<J>): (r: Result<J, GenerateError>)
    ensures answer.None? ==> r == Failure(RequestFailed)
    ensures answer.Some? ==> (r.Success? <==> loads(CleanJsonText(answer.value)).Some?)
    ensures r.Success? ==> answer.Some? && Some(r.value) == loads(CleanJsonText(answer.value))
    ensures r.Failure? && answer.Some? ==> r.error == NotJson
    ensures r.Success? ==> answer.Some? && (exists t ::
              IsSubseq(t, Strip(answer.value)) && '\n' !in t && '`' !in t && loads(t) == Some(r.value))
  {
    match answer
    case None => Failure(RequestFailed)
    case Some(text) =>
      match loads(CleanJsonText(text))
      case None => Failure(NotJson)
      case Some(j) => Success(j)
  }

  /**
   * Text without whitespace at its ends, newlines or backticks reaches
   * `json.loads` with only its `json` occurrences removed.
   */
  lemma CleanOnlyRemovesJsonWord(raw: string)
    requires |raw| > 0 ==> !IsSpace(raw[0]) && !IsSpace(raw[|raw| - 1])
    requires '\n' !in raw && '`' !in raw
    ensures CleanJsonText(raw) == RemoveAll(raw, "json")
  {
    StripOfTrimmed(raw);
    RemoveAllCharIsWithout(raw, '\n');
    WithoutAbsent(raw, '\n');
    RemoveAllCharIsWithout(raw, '`');
    WithoutAbsent(raw, '`');
  }

  lemma StripOfTrimmed(s: string)
    requires |s| > 0 ==> !IsSpace(s[0]) && !IsSpace(s[|s| - 1])
    ensures Strip(s) == s
  {
  }

  /** `json` does not overlap itself. */
  lemma JsonUnbordered()
    ensures Unbordered("json")
  {
    var w := "json";
    forall k | 0 < k < |w|
      ensures w[k..] != w[..|w| - k]
    {
      assert w[..|w| - k][0] == 'j' != w[k..][0];
    }
  }

  /**
   * A `json` after text free of it is deleted, that text is kept, and
   * removal goes on after it; so every non-overlapping `json` goes.
   */
  lemma JsonWordRemoved(a: string, b: string)
    requires !Occurs(a, "json")
    ensures RemoveAll(a + "json" + b, "json") == a + RemoveAll(b, "json")
  {
    JsonUnbordered();
    RemoveAllOfIsolated(a, "json", b);
  }

  /**
   * One pass is not a fixed point: deleting the inner `json` of
   * `jsjsonon` forms a new `json`, which reaches `json.loads`.
   */
  lemma SinglePassLeavesFormedJson(raw: string)
    requires raw == "jsjsonon"
    ensures CleanJsonText(raw) == "json"
  {
    var a, b := "js", "on";
    ExampleParts(raw, a, b);
    JsonWordRemoved(a, b);
    CleanOnlyRemovesJsonWord(raw);
  }

  /** The pieces of the example: `js`, the inner `json`, `on`. */
  lemma ExampleParts(raw: string, a: string, b: string)
    requires raw == "jsjsonon" && a == "js" && b == "on"
    ensures raw == a + "json" + b && a + b == "json"
    ensures !Occurs(a, "json") && RemoveAll(b, "json") == b
    ensures !IsSpace(raw[0]) && !IsSpace(raw[|raw| - 1]) && '\n' !in raw && '`' !in raw
  {
    ShorterNotOccurs(a, "json");
  }
}
