/**
 * The lookup tables both pages apply to a record before rendering it:
 * the charge table (the same in both files) and the two verdict tables,
 * one per page, which must stay distinct.
 */
module Labels {

  const MurderIntent := "Murder in the first degree, after deliberation and with intent"
  const MurderIndifference := "Murder in the first degree, with \"universal malice manifesting extreme indifference\""
  const AttemptIntent := "Attempted murder in the first degree, after deliberation and with intent"
  const AttemptIndifference := "Attempted murder in the first degree, with \"universal malice manifesting extreme indifference\""

  /** The four official phrasings the pages shorten, with their short labels. */
  const Abbreviations: map<string, string> := map[
    MurderIntent := "Murder, first degree, with intent",
    MurderIndifference := "Murder, first degree, with extreme indifference",
    AttemptIntent := "Attempted murder, first degree, with intent",
    AttemptIndifference := "Attempted murder, first degree, with extreme indifference"
  ]

  /** `charge_lookup(charge)`: the chain of exact comparisons of both pages. */
  function ChargeLookup(charge: string): (r: string)
    ensures charge in Abbreviations ==> r == Abbreviations[charge]
    ensures charge !in Abbreviations ==> r == charge
    ensures r !in Abbreviations
  {
    if charge == MurderIntent then "Murder, first degree, with intent"
    else if charge == MurderIndifference then "Murder, first degree, with extreme indifference"
    else if charge == AttemptIntent then "Attempted murder, first degree, with intent"
    else if charge == AttemptIndifference then "Attempted murder, first degree, with extreme indifference"
    else charge
  }

  /** Shortening a charge twice gives what shortening it once gave. */
  lemma ChargeLookupIdempotent(charge: string)
    ensures ChargeLookup(ChargeLookup(charge)) == ChargeLookup(charge)
  {
  }

  /** Two different official phrasings never share a short label, and a short label is never an input the table changes. */
  lemma AbbreviationsInjective(a: string, b: string)
    requires a in Abbreviations && b in Abbreviations && a != b
    ensures Abbreviations[a] != Abbreviations[b]
    ensures Abbreviations[a] !in Abbreviations
  {
  }

  /** The verdict codes of the verdict page and what each stands for. */
  const VerdictCodes: map<string, string> := map[
    "0" := "Not guilty by reason of insanity",
    "1" := "Guilty",
    "2" := "Not guilty"
  ]

  /** The verdict codes of the death-penalty page and the sentence each stands for. */
  const SentenceCodes: map<string, string> := map[
    "0" := "Death penalty",
    "1" := "Life in prison"
  ]

  /** `verdict_lookup(verdict)` of www/verdict.js. */
  function VerdictLabel(code: string): (r: string)
    ensures code in VerdictCodes ==> r == VerdictCodes[code]
    ensures code !in VerdictCodes ==> r == ""
    ensures r == "" <==> code !in VerdictCodes
  {
    if code == "" then ""
    else if code == "0" then "Not guilty by reason of insanity"
    else if code == "1" then "Guilty"
    else if code == "2" then "Not guilty"
    else ""
  }

  /** `verdict_lookup(verdict)` of www/death_penalty.js: the sentence a verdict code stands for. */
  function SentenceLabel(code: string): (r: string)
    ensures code in SentenceCodes ==> r == SentenceCodes[code]
    ensures code !in SentenceCodes ==> r == ""
    ensures r == "" <==> code !in SentenceCodes
  {
    if code == "" then ""
    else if code == "0" then "Death penalty"
    else if code == "1" then "Life in prison"
    else ""
  }

  /** Each table gives distinct codes distinct labels, so a label names its code. */
  lemma VerdictCodesInjective(a: string, b: string)
    ensures a in VerdictCodes && b in VerdictCodes && a != b ==> VerdictCodes[a] != VerdictCodes[b]
    ensures a in SentenceCodes && b in SentenceCodes && a != b ==> SentenceCodes[a] != SentenceCodes[b]
  {
  }

  /** The two tables share no non-empty label, whatever the codes. */
  lemma VerdictTablesDistinct(a: string, b: string)
    ensures VerdictLabel(a) != "" ==> VerdictLabel(a) != SentenceLabel(b)
  {
  }

  /** A label is not itself a code: looking a label up again gives "". */
  lemma LabelsAreNotCodes(code: string)
    ensures VerdictLabel(VerdictLabel(code)) == ""
    ensures SentenceLabel(SentenceLabel(code)) == ""
  {
  }
}
