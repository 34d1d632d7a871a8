/**
 * The icon chosen for a file in the rendered list (`getFileIcon`): a fixed
 * sequence of tests on the MIME type, the first passing test deciding the
 * icon class token, and a generic token when none passes.
 */
module Icons {
  import opened Strings

  const ImageIcon := "fas fa-image"
  const VideoIcon := "fas fa-video"
  const AudioIcon := "fas fa-music"
  const PdfIcon := "fas fa-file-pdf"
  const WordIcon := "fas fa-file-word"
  const ExcelIcon := "fas fa-file-excel"
  const GenericIcon := "fas fa-file"

  /** The seven icon class tokens the widget can produce. */
  const IconTokens: set<string> :=
    {ImageIcon, VideoIcon, AudioIcon, PdfIcon, WordIcon, ExcelIcon, GenericIcon}

  /** A test on a MIME type: a prefix, a substring, or either of two tests. */
  datatype Test = Prefix(prefix: string) | Contains(sub: string) | Either(left: Test, right: Test)

  predicate Passes(t: Test, mimeType: string)
  {
    match t
    case Prefix(p) => StartsWith(mimeType, p)
    case Contains(sub) => Includes(mimeType, sub)
    case Either(l, r) => Passes(l, mimeType) || Passes(r, mimeType)
  }

  /** The classification as a table: each test with the token it selects, in order of precedence. */
  const IconRules: seq<(Test, string)> := [
    (Prefix("image/"), ImageIcon),
    (Prefix("video/"), VideoIcon),
    (Prefix("audio/"), AudioIcon),
    (Contains("pdf"), PdfIcon),
    (Contains("word"), WordIcon),
    (Either(Contains("excel"), Contains("spreadsheet")), ExcelIcon)
  ]

  /** Reference reading of a rule table: the token of the first passing rule, else the generic token. */
  function FirstMatch(rules: seq<(Test, string)>, mimeType: string): string
  {
    if rules == [] then GenericIcon
    else if Passes(rules[0].0, mimeType) then rules[0].1
    else FirstMatch(rules[1..], mimeType)
  }

  /** `getFileIcon`: an if-chain of prefix and substring tests on the MIME type. */
  function GetFileIcon(mimeType: string): (r: string)
    ensures r in IconTokens
  {
    if StartsWith(mimeType, "image/") then ImageIcon
    else if StartsWith(mimeType, "video/") then VideoIcon
    else if StartsWith(mimeType, "audio/") then AudioIcon
    else if Includes(mimeType, "pdf") then PdfIcon
    else if Includes(mimeType, "word") then WordIcon
    else if Includes(mimeType, "excel") || Includes(mimeType, "spreadsheet") then ExcelIcon
    else GenericIcon
  }

  /** The if-chain agrees with the rule table read first-match-wins. */
  lemma GetFileIconFollowsRules(mimeType: string)
    ensures GetFileIcon(mimeType) == FirstMatch(IconRules, mimeType)
  {
    assert IconRules[6..] == [] && FirstMatch(IconRules[6..], mimeType) == GenericIcon;
    assert IconRules[5..][1..] == IconRules[6..];
    assert IconRules[5..][0] == (Either(Contains("excel"), Contains("spreadsheet")), ExcelIcon);
    assert Passes(Either(Contains("excel"), Contains("spreadsheet")), mimeType) ==
      (Includes(mimeType, "excel") || Includes(mimeType, "spreadsheet"));
    assert FirstMatch(IconRules[5..], mimeType) ==
      if Includes(mimeType, "excel") || Includes(mimeType, "spreadsheet") then ExcelIcon else GenericIcon;
    assert FirstMatch(IconRules[4..], mimeType) ==
      if Includes(mimeType, "word") then WordIcon else FirstMatch(IconRules[5..], mimeType);
    assert FirstMatch(IconRules[3..], mimeType) ==
      if Includes(mimeType, "pdf") then PdfIcon else FirstMatch(IconRules[4..], mimeType);
    assert FirstMatch(IconRules[2..], mimeType) ==
      if StartsWith(mimeType, "audio/") then AudioIcon else FirstMatch(IconRules[3..], mimeType);
    assert FirstMatch(IconRules[1..], mimeType) ==
      if StartsWith(mimeType, "video/") then VideoIcon else FirstMatch(IconRules[2..], mimeType);
    assert FirstMatch(IconRules, mimeType) ==
      if StartsWith(mimeType, "image/") then ImageIcon else FirstMatch(IconRules[1..], mimeType);
  }

  /** In any rule table, the first rule that passes decides the token. */
  lemma {:induction false} FirstPassingRuleWins(rules: seq<(Test, string)>, mimeType: string, k: nat)
    requires k < |rules| && Passes(rules[k].0, mimeType)
    requires forall j :: 0 <= j < k ==> !Passes(rules[j].0, mimeType)
    ensures FirstMatch(rules, mimeType) == rules[k].1
  {
    if k > 0 {
      assert !Passes(rules[0].0, mimeType);
      FirstPassingRuleWins(rules[1..], mimeType, k - 1);
    }
  }

  /** When no rule passes, the table yields the generic token. */
  lemma {:induction false} NoPassingRuleIsGeneric(rules: seq<(Test, string)>, mimeType: string)
    requires forall j :: 0 <= j < |rules| ==> !Passes(rules[j].0, mimeType)
    ensures FirstMatch(rules, mimeType) == GenericIcon
  {
    if rules != [] {
      assert !Passes(rules[0].0, mimeType);
      NoPassingRuleIsGeneric(rules[1..], mimeType);
    }
  }

  /** When some rule passes and no rule selects the generic token, the table does not yield it. */
  lemma {:induction false} PassingRuleNotGeneric(rules: seq<(Test, string)>, mimeType: string, k: nat)
    requires k < |rules| && Passes(rules[k].0, mimeType)
    requires forall j :: 0 <= j < |rules| ==> rules[j].1 != GenericIcon
    ensures FirstMatch(rules, mimeType) != GenericIcon
  {
    if k > 0 && !Passes(rules[0].0, mimeType) {
      PassingRuleNotGeneric(rules[1..], mimeType, k - 1);
    }
  }

  /** A type starting with "image/" gets the image icon whatever else it contains. */
  lemma ImagePrefixWins(mimeType: string)
    requires StartsWith(mimeType, "image/")
    ensures GetFileIcon(mimeType) == ImageIcon
  {
  }

  /** The generic token is chosen exactly when no rule of the table passes. */
  lemma GenericIffNoRulePasses(mimeType: string)
    ensures GetFileIcon(mimeType) == GenericIcon <==>
            forall j :: 0 <= j < |IconRules| ==> !Passes(IconRules[j].0, mimeType)
  {
    GetFileIconFollowsRules(mimeType);
    if forall j :: 0 <= j < |IconRules| ==> !Passes(IconRules[j].0, mimeType) {
      NoPassingRuleIsGeneric(IconRules, mimeType);
    } else {
      var k :| 0 <= k < |IconRules| && Passes(IconRules[k].0, mimeType);
      PassingRuleNotGeneric(IconRules, mimeType, k);
    }
  }

  /** Falling through every test of the chain gives the generic token. */
  lemma GenericWhenNoTestPasses(mimeType: string)
    requires !StartsWith(mimeType, "image/") && !StartsWith(mimeType, "video/") && !StartsWith(mimeType, "audio/")
    requires !Includes(mimeType, "pdf") && !Includes(mimeType, "word")
    requires !Includes(mimeType, "excel") && !Includes(mimeType, "spreadsheet")
    ensures GetFileIcon(mimeType) == GenericIcon
  {
  }
}
