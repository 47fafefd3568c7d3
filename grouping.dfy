/**
 * The grouping pass both pages run over a slice of feed records
 * (`init` in www/verdict.js and www/death_penalty.js), as a pure
 * specification: the first record of each `name_full` is buffered, and every
 * later record for that name cleans up the first two stored records in place
 * and renders one block from them.
 */
module Grouping {
  import opened Results
  import opened Slug
  import opened Labels
  import opened Markup

  /**
   * What a page's `verdict` object supplies to the pass: its charge table,
   * its verdict table, its `slugify`, the colon it writes after a
   * (cleaned-up) charge, and its two markup builders. The structure of the
   * pass is proved for any rules; what the two pages show is proved for
   * their own rules.
   */
  datatype Rules = Rules(chargeLookup: string -> string, verdictLookup: string -> string,
                         slugify: string -> string, colon: string -> string,
                         chargeMarkup: (Record, string) -> string, itemMarkup: (Record, string) -> string)

  /** The charge after which the death-penalty page writes no colon. */
  const Enhancer := "Crime of violence (sentence enhancer)"

  /** www/verdict.js writes ':' after every charge. */
  function AlwaysColon(charge: string): string
  {
    ":"
  }

  /** www/death_penalty.js writes no colon after the sentence enhancer. */
  function SentenceColon(charge: string): string
  {
    if charge == Enhancer then "" else ":"
  }

  const VerdictRules := Rules(ChargeLookup, VerdictLabel, Slugify, AlwaysColon, ChargeMarkup, ItemMarkup)
  const DeathPenaltyRules := Rules(ChargeLookup, SentenceLabel, Slugify, SentenceColon, ChargeMarkup, ItemMarkup)

  /**
   * The colon rules: always ':' on the verdict page; on the death-penalty
   * page "" exactly for the enhancer, which the charge table leaves as it is,
   * so the rule reads the same on the raw charge.
   */
  lemma ColonRules(charge: string)
    ensures VerdictRules.colon(charge) == ":"
    ensures DeathPenaltyRules.colon(charge) == "" <==> charge == Enhancer
    ensures DeathPenaltyRules.colon(charge) == "" || DeathPenaltyRules.colon(charge) == ":"
    ensures DeathPenaltyRules.colon(DeathPenaltyRules.chargeLookup(charge)) == "" <==> charge == Enhancer
  {
  }

  /** The `items` map: records buffered per `name_full`. */
  type Items = map<string, seq<Record>>

  /** Every buffered list is non-empty: a name enters the map with its first record. */
  predicate WellFormed(items: Items)
  {
    forall key | key in items :: items[key] != []
  }

  /**
   * The in-place clean-up of one stored record: charge and verdict through
   * the tables, `verdict_slug` from the new verdict and, for the first record
   * of the pair, `slug` from the name.
   */
  function Normalize(rules: Rules, r: Record, first: bool): (n: Record)
    ensures n.nameFull == r.nameFull
  {
    var verdict := rules.verdictLookup(r.verdict);
    r.(charge := rules.chargeLookup(r.charge), verdict := verdict, verdictSlug := rules.slugify(verdict),
       slug := if first then rules.slugify(r.nameFull) else r.slug)
  }

  /** The block rendered from the first two stored records of a name. */
  function Block(rules: Rules, a: Record, b: Record): string
  {
    rules.itemMarkup(a, rules.chargeMarkup(a, rules.colon(a.charge)) + rules.chargeMarkup(b, rules.colon(b.charge)))
  }

  /** The state of a pass: the buffered records and the blocks appended so far. */
  datatype Rendered = Rendered(items: Items, blocks: seq<string>)

  /** `list` with its first two records cleaned up in place. */
  function CleanUpPair(rules: Rules, list: seq<Record>): (cleaned: seq<Record>)
    requires |list| >= 2
    ensures |cleaned| == |list|
    ensures cleaned[0] == Normalize(rules, list[0], true) && cleaned[1] == Normalize(rules, list[1], false)
    ensures forall j | 2 <= j < |list| :: cleaned[j] == list[j]
  {
    list[0 := Normalize(rules, list[0], true)][1 := Normalize(rules, list[1], false)]
  }

  /** The work of one iteration of the pass over one record. */
  function Step(rules: Rules, items: Items, r: Record): (s: Rendered)
    requires WellFormed(items)
    ensures WellFormed(s.items)
  {
    var key := r.nameFull;
    if key !in items then
      Rendered(items[key := [r]], [])
    else
      var cleaned := CleanUpPair(rules, items[key] + [r]);
      Rendered(items[key := cleaned], [Block(rules, cleaned[0], cleaned[1])])
  }

  /** One pass over `recs`, starting from the buffered `items`. */
  function Pass(rules: Rules, items: Items, recs: seq<Record>): (p: Rendered)
    requires WellFormed(items)
    ensures WellFormed(p.items)
    decreases |recs|
  {
    if recs == [] then Rendered(items, [])
    else
      var before := Pass(rules, items, recs[..|recs| - 1]);
      var s := Step(rules, before.items, recs[|recs| - 1]);
      Rendered(s.items, before.blocks + s.blocks)
  }

  /** The pass over the first `n` records of `recs`, counted by index as a loop walks them. */
  function PassUpTo(rules: Rules, items: Items, recs: seq<Record>, n: nat): (p: Rendered)
    requires WellFormed(items) && n <= |recs|
    ensures WellFormed(p.items)
  {
    if n == 0 then Rendered(items, [])
    else
      var before := PassUpTo(rules, items, recs, n - 1);
      var s := Step(rules, before.items, recs[n - 1]);
      Rendered(s.items, before.blocks + s.blocks)
  }

  /** Walking the records by index is the pass over the prefix walked. */
  lemma {:induction false} PassUpToIsPass(rules: Rules, items: Items, recs: seq<Record>, n: nat)
    requires WellFormed(items) && n <= |recs|
    ensures PassUpTo(rules, items, recs, n) == Pass(rules, items, recs[..n])
  {
    if n > 0 {
      PassUpToIsPass(rules, items, recs, n - 1);
      assert recs[..n][..n - 1] == recs[..n - 1];
    }
  }

  // ---------------------------------------------------------------------
  // A reference description of a pass from an empty map, record by record.

  /** The records of `recs` whose name is `key`, in order. */
  function Occurrences(recs: seq<Record>, key: string): (occ: seq<Record>)
    ensures forall j | 0 <= j < |occ| :: occ[j].nameFull == key
    decreases |recs|
  {
    if recs == [] then []
    else Occurrences(recs[..|recs| - 1], key) + (if recs[|recs| - 1].nameFull == key then [recs[|recs| - 1]] else [])
  }

  /** The names present in `recs`. */
  function Names(recs: seq<Record>): set<string>
    decreases |recs|
  {
    if recs == [] then {} else Names(recs[..|recs| - 1]) + {recs[|recs| - 1].nameFull}
  }

  /** `Normalize` applied `times` times. */
  function Renormalize(rules: Rules, r: Record, first: bool, times: nat): (n: Record)
    ensures n.nameFull == r.nameFull
  {
    if times == 0 then r else Normalize(rules, Renormalize(rules, r, first, times - 1), first)
  }

  /** What `items[key]` holds once the records `occ` of that key have been seen. */
  function Stored(rules: Rules, occ: seq<Record>): seq<Record>
  {
    if |occ| <= 1 then occ
    else [Renormalize(rules, occ[0], true, |occ| - 1), Renormalize(rules, occ[1], false, |occ| - 1)] + occ[2..]
  }

  /** The block the last of the records `occ` of one name triggers. */
  function BlockFor(rules: Rules, occ: seq<Record>): string
    requires |occ| >= 2
  {
    Block(rules, Stored(rules, occ)[0], Stored(rules, occ)[1])
  }

  /** The record at `i` repeats a name seen before it, so it triggers a block. */
  predicate Repeats(recs: seq<Record>, i: nat)
    requires i < |recs|
  {
    |Occurrences(recs[..i + 1], recs[i].nameFull)| >= 2
  }

  lemma RepeatsInPrefix(recs: seq<Record>, n: nat, i: nat)
    requires i < n <= |recs|
    ensures Repeats(recs[..n], i) == Repeats(recs, i)
  {
    assert recs[..n][..i + 1] == recs[..i + 1];
  }

  /** The indices of the records that trigger a block, in increasing order. */
  function Triggers(recs: seq<Record>): (t: seq<nat>)
    ensures forall j | 0 <= j < |t| :: t[j] < |recs| && Repeats(recs, t[j])
    ensures forall j, j' | 0 <= j < j' < |t| :: t[j] < t[j']
    decreases |recs|
  {
    if recs == [] then []
    else
      var n := |recs| - 1;
      var t := Triggers(recs[..n]);
      forall j | 0 <= j < |t| ensures Repeats(recs, t[j]) {
        RepeatsInPrefix(recs, n, t[j]);
      }
      assert recs[..n + 1] == recs;
      t + (if Repeats(recs, n) then [n] else [])
  }

  lemma {:induction false} OccurrencesPresent(recs: seq<Record>, key: string)
    ensures Occurrences(recs, key) != [] <==> key in Names(recs)
    ensures Occurrences(recs, key) != [] <==> exists i | 0 <= i < |recs| :: recs[i].nameFull == key
    decreases |recs|
  {
    if recs != [] {
      var prefix := recs[..|recs| - 1];
      OccurrencesPresent(prefix, key);
      assert forall i | 0 <= i < |prefix| :: prefix[i] == recs[i];
      if recs[|recs| - 1].nameFull != key {
        forall i | 0 <= i < |recs| && recs[i].nameFull == key ensures i < |prefix| {}
      }
    }
  }

  /** A triggering record repeats a name seen before it, and only such a record triggers. */
  lemma RepeatsMeans(recs: seq<Record>, i: nat)
    requires i < |recs|
    ensures Repeats(recs, i) <==> exists j | 0 <= j < i :: recs[j].nameFull == recs[i].nameFull
  {
    var key := recs[i].nameFull;
    var upto := recs[..i + 1];
    assert upto[..i] == recs[..i];
    assert Occurrences(upto, key) == Occurrences(recs[..i], key) + [recs[i]];
    OccurrencesPresent(recs[..i], key);
    assert forall j | 0 <= j < i :: recs[..i][j] == recs[j];
  }

  lemma {:induction false} TriggersMembership(recs: seq<Record>, i: nat)
    requires i < |recs|
    ensures i in Triggers(recs) <==> Repeats(recs, i)
    decreases |recs|
  {
    var n := |recs| - 1;
    var t := Triggers(recs[..n]);
    assert Triggers(recs) == t + (if Repeats(recs, n) then [n] else []);
    if i < n {
      TriggersMembership(recs[..n], i);
      RepeatsInPrefix(recs, n, i);
    } else {
      assert i !in t;
    }
  }

  /** The records that trigger a block are exactly those whose name occurred before them. */
  lemma TriggersAreRepeats(recs: seq<Record>, i: nat)
    requires i < |recs|
    ensures i in Triggers(recs) <==> exists j | 0 <= j < i :: recs[j].nameFull == recs[i].nameFull
  {
    TriggersMembership(recs, i);
    RepeatsMeans(recs, i);
  }

  /** The block the record at `i` triggers, from the records of its name up to it. */
  function TriggeredBlock(rules: Rules, recs: seq<Record>, i: nat): string
    requires i < |recs| && Repeats(recs, i)
  {
    BlockFor(rules, Occurrences(recs[..i + 1], recs[i].nameFull))
  }

  lemma StoredGrowsFirst(rules: Rules, occ: seq<Record>, r: Record)
    requires occ != []
    ensures |Stored(rules, occ + [r])| == |occ| + 1 == |Stored(rules, occ) + [r]|
    ensures Stored(rules, occ + [r])[0] == Normalize(rules, Stored(rules, occ)[0], true)
  {
    assert (occ + [r])[0] == occ[0];
  }

  lemma StoredGrowsSecond(rules: Rules, occ: seq<Record>, r: Record)
    requires occ != []
    ensures |Stored(rules, occ + [r])| == |occ| + 1 == |Stored(rules, occ) + [r]|
    ensures Stored(rules, occ + [r])[1] == Normalize(rules, (Stored(rules, occ) + [r])[1], false)
  {
    var m := |occ|;
    if m == 1 {
      assert (occ + [r])[1] == r;
      assert Stored(rules, occ) == occ;
      assert Renormalize(rules, r, false, 1) == Normalize(rules, r, false);
    } else {
      assert (occ + [r])[1] == occ[1];
      assert Stored(rules, occ)[1] == Renormalize(rules, occ[1], false, m - 1);
      assert Renormalize(rules, occ[1], false, m) == Normalize(rules, Renormalize(rules, occ[1], false, m - 1), false);
    }
  }

  lemma StoredGrowsRest(rules: Rules, occ: seq<Record>, r: Record)
    requires occ != []
    ensures |Stored(rules, occ + [r])| == |occ| + 1
    ensures forall j | 2 <= j <= |occ| :: Stored(rules, occ + [r])[j] == (Stored(rules, occ) + [r])[j]
  {
    if |occ| >= 2 {
      forall j | 2 <= j <= |occ| ensures Stored(rules, occ + [r])[j] == (Stored(rules, occ) + [r])[j] {
        assert Stored(rules, occ + [r])[j] == (occ + [r])[j];
      }
    }
  }

  /** Cleaning up the pair after one more record of a name gives `Stored` of one more record. */
  lemma CleanUpStored(rules: Rules, occ: seq<Record>, r: Record)
    requires occ != []
    ensures |Stored(rules, occ) + [r]| >= 2
    ensures CleanUpPair(rules, Stored(rules, occ) + [r]) == Stored(rules, occ + [r])
  {
    StoredGrowsFirst(rules, occ, r);
    StoredGrowsSecond(rules, occ, r);
    StoredGrowsRest(rules, occ, r);
  }

  /** One step, seen per name: the buffered list of the record's name grows by the record. */
  lemma StepOnStored(rules: Rules, items: Items, r: Record, occ: seq<Record>)
    requires WellFormed(items)
    requires r.nameFull in items <==> occ != []
    requires r.nameFull in items ==> items[r.nameFull] == Stored(rules, occ)
    ensures var s := Step(rules, items, r);
      && s.items == items[r.nameFull := Stored(rules, occ + [r])]
      && s.blocks == if occ == [] then [] else [BlockFor(rules, occ + [r])]
  {
    if occ != [] {
      CleanUpStored(rules, occ, r);
    } else {
      assert occ + [r] == [r];
    }
  }

  /** From an empty map, a pass buffers for each name exactly `Stored` of that name's records. */
  lemma {:induction false} PassItems(rules: Rules, recs: seq<Record>)
    ensures Buffers(rules, recs, Pass(rules, map[], recs).items)
    decreases |recs|
  {
    if recs != [] {
      var prefix := recs[..|recs| - 1];
      var r := recs[|recs| - 1];
      PassItems(rules, prefix);
      var before := Pass(rules, map[], prefix);
      StepOnStored(rules, before.items, r, Occurrences(prefix, r.nameFull));
      BufferGrows(rules, recs, before.items);
    }
  }

  /** The buffers of a pass are `Stored` of each name's records. */
  ghost predicate Buffers(rules: Rules, recs: seq<Record>, items: Items)
  {
    && (forall key :: key in items <==> Occurrences(recs, key) != [])
    && (forall key | key in items :: items[key] == Stored(rules, Occurrences(recs, key)))
  }

  /** Storing the last record under its name keeps the buffers in step with the records. */
  lemma BufferGrows(rules: Rules, recs: seq<Record>, items: Items)
    requires recs != [] && Buffers(rules, recs[..|recs| - 1], items)
    ensures var prefix, r := recs[..|recs| - 1], recs[|recs| - 1];
      Buffers(rules, recs, items[r.nameFull := Stored(rules, Occurrences(prefix, r.nameFull) + [r])])
  {
    var prefix, r := recs[..|recs| - 1], recs[|recs| - 1];
    var grown := items[r.nameFull := Stored(rules, Occurrences(prefix, r.nameFull) + [r])];
    forall key
      ensures key in grown <==> Occurrences(recs, key) != []
      ensures key in grown ==> grown[key] == Stored(rules, Occurrences(recs, key))
    {
      if key == r.nameFull {
        assert Occurrences(recs, key) == Occurrences(prefix, key) + [r];
        assert key in grown && grown[key] == Stored(rules, Occurrences(recs, key));
      } else {
        assert Occurrences(recs, key) == Occurrences(prefix, key) + [];
        assert Occurrences(prefix, key) + [] == Occurrences(prefix, key);
        assert (key in grown <==> key in items) && (key in grown ==> grown[key] == items[key]);
      }
    }
  }

  /** The last record of `recs` triggers exactly when its name occurred before it. */
  lemma TriggersGrow(recs: seq<Record>)
    requires recs != []
    ensures var n := |recs| - 1; var occ := Occurrences(recs[..n], recs[n].nameFull);
      && Occurrences(recs, recs[n].nameFull) == occ + [recs[n]]
      && Triggers(recs) == Triggers(recs[..n]) + (if occ != [] then [n] else [])
  {
    var n := |recs| - 1;
    var occ := Occurrences(recs[..n], recs[n].nameFull);
    assert recs[..n + 1] == recs;
    assert Occurrences(recs, recs[n].nameFull) == occ + [recs[n]];
    assert Repeats(recs, n) <==> occ != [];
  }

  /** A block triggered inside a prefix is the same block in the whole sequence. */
  lemma TriggeredBlockInPrefix(rules: Rules, recs: seq<Record>, n: nat, i: nat)
    requires i < n <= |recs| && Repeats(recs[..n], i)
    ensures Repeats(recs, i)
    ensures TriggeredBlock(rules, recs[..n], i) == TriggeredBlock(rules, recs, i)
  {
    RepeatsInPrefix(recs, n, i);
    assert recs[..n][..i + 1] == recs[..i + 1];
  }

  /**
   * From an empty map, a pass emits, in order, one block per triggering
   * record, built from the records of that name seen up to it.
   */
  lemma {:induction false} PassBlocks(rules: Rules, recs: seq<Record>)
    ensures var p := Pass(rules, map[], recs);
      && |p.blocks| == |Triggers(recs)|
      && forall j | 0 <= j < |p.blocks| :: p.blocks[j] == TriggeredBlock(rules, recs, Triggers(recs)[j])
    decreases |recs|
  {
    if recs != [] {
      var n := |recs| - 1;
      var prefix := recs[..n];
      var r := recs[n];
      PassBlocks(rules, prefix);
      PassItems(rules, prefix);
      var before := Pass(rules, map[], prefix);
      var occ := Occurrences(prefix, r.nameFull);
      StepOnStored(rules, before.items, r, occ);
      TriggersGrow(recs);
      var t := Triggers(prefix);
      var p := Pass(rules, map[], recs);
      if occ == [] {
        assert p.blocks == before.blocks && Triggers(recs) == t;
        forall j | 0 <= j < |p.blocks| ensures p.blocks[j] == TriggeredBlock(rules, recs, Triggers(recs)[j]) {
          TriggeredBlockInPrefix(rules, recs, n, t[j]);
        }
      } else {
        assert p.blocks == before.blocks + [BlockFor(rules, occ + [r])];
        assert Triggers(recs) == t + [n];
        forall j | 0 <= j < |p.blocks| ensures p.blocks[j] == TriggeredBlock(rules, recs, Triggers(recs)[j]) {
          if j < |t| {
            assert p.blocks[j] == before.blocks[j] && Triggers(recs)[j] == t[j];
            TriggeredBlockInPrefix(rules, recs, n, t[j]);
          } else {
            assert recs[..n + 1] == recs;
            assert Triggers(recs)[j] == n;
          }
        }
      }
    }
  }

  /** A pass from an empty map emits as many blocks as there are records beyond the first of each name. */
  lemma {:induction false} BlockCount(rules: Rules, recs: seq<Record>)
    ensures |Pass(rules, map[], recs).blocks| + |Names(recs)| == |recs|
  {
    PassBlocks(rules, recs);
    TriggerCount(recs);
  }

  lemma {:induction false} TriggerCount(recs: seq<Record>)
    ensures |Triggers(recs)| + |Names(recs)| == |recs|
    decreases |recs|
  {
    if recs != [] {
      var prefix := recs[..|recs| - 1];
      var key := recs[|recs| - 1].nameFull;
      TriggerCount(prefix);
      OccurrencesPresent(prefix, key);
      assert recs[..|recs|] == recs;
      assert Occurrences(recs, key) == Occurrences(prefix, key) + [recs[|recs| - 1]];
      if key !in Names(prefix) {
        assert |Names(prefix) + {key}| == |Names(prefix)| + 1;
      } else {
        assert Names(prefix) + {key} == Names(prefix);
      }
    }
  }
  // ---------------------------------------------------------------------
  // What the two pages' own rules add.

  /**
   * Rules under which cleaning a record up twice settles it: the charge table
   * is idempotent, a verdict label is not itself a code, and the slug of ""
   * is "".
   */
  ghost predicate Settles(rules: Rules)
  {
    && (forall c :: rules.chargeLookup(rules.chargeLookup(c)) == rules.chargeLookup(c))
    && (forall c :: rules.verdictLookup(rules.verdictLookup(c)) == "")
    && rules.verdictLookup("") == ""
    && rules.slugify("") == ""
  }

  /** Both pages' rules settle. */
  lemma PagesSettle()
    ensures Settles(VerdictRules) && Settles(DeathPenaltyRules)
  {
    forall c ensures VerdictRules.chargeLookup(VerdictRules.chargeLookup(c)) == VerdictRules.chargeLookup(c) {
      ChargeLookupIdempotent(c);
    }
    forall c ensures VerdictLabel(VerdictLabel(c)) == "" && SentenceLabel(SentenceLabel(c)) == "" {
      LabelsAreNotCodes(c);
    }
    SlugifyEmpty();
  }

  /** Both pages' slugs hold no double quote. */
  lemma PagesSlugsQuoteFree()
    ensures forall s :: '"' !in VerdictRules.slugify(s) && '"' !in DeathPenaltyRules.slugify(s)
  {
    forall s ensures '"' !in Slugify(s) {
      SlugifyIsSlug(s);
      SlugHasNoSpaceOrQuote(Slugify(s));
    }
  }

  /** A record cleaned up twice or more: short charge, blank verdict and verdict slug. */
  function Settled(rules: Rules, r: Record, first: bool): Record
  {
    r.(charge := rules.chargeLookup(r.charge), verdict := "", verdictSlug := "",
       slug := if first then rules.slugify(r.nameFull) else r.slug)
  }

  /**
   * From the second clean-up on, a stored record no longer changes: the
   * labels written by the first clean-up are looked up again as codes and
   * go blank.
   */
  lemma {:induction false} RenormalizeSettles(rules: Rules, r: Record, first: bool, times: nat)
    requires Settles(rules) && times >= 2
    ensures Renormalize(rules, r, first, times) == Settled(rules, r, first)
  {
    if times > 2 {
      RenormalizeSettles(rules, r, first, times - 1);
    } else {
      var once := Normalize(rules, r, first);
      assert Renormalize(rules, r, first, 1) == once;
      assert Renormalize(rules, r, first, 2) == Normalize(rules, once, first);
      assert once.verdict == rules.verdictLookup(r.verdict);
    }
  }

  /** The first record of a name that has been cleaned up carries the slug of that name. */
  lemma {:induction false} RenormalizeSlug(rules: Rules, r: Record, times: nat)
    requires times >= 1
    ensures Renormalize(rules, r, true, times).slug == rules.slugify(r.nameFull)
  {
    if times > 1 {
      RenormalizeSlug(rules, r, times - 1);
    }
  }

  /** The block of the second record of a name shows both records cleaned up once. */
  lemma SecondRecordBlock(rules: Rules, occ: seq<Record>)
    requires |occ| == 2
    ensures BlockFor(rules, occ) == Block(rules, Normalize(rules, occ[0], true), Normalize(rules, occ[1], false))
  {
    assert Renormalize(rules, occ[0], true, 1) == Normalize(rules, occ[0], true);
    assert Renormalize(rules, occ[1], false, 1) == Normalize(rules, occ[1], false);
  }

  /**
   * The block of the third or a later record of a name repeats the first two
   * records with blank verdicts; the later records themselves are not shown.
   */
  lemma LaterRecordBlock(rules: Rules, occ: seq<Record>)
    requires Settles(rules) && |occ| >= 3
    ensures BlockFor(rules, occ) == Block(rules, Settled(rules, occ[0], true), Settled(rules, occ[1], false))
  {
    RenormalizeSettles(rules, occ[0], true, |occ| - 1);
    RenormalizeSettles(rules, occ[1], false, |occ| - 1);
  }

  /** The heading id of every block is the slug of the name of the record that triggered it. */
  lemma TriggeredBlockId(rules: Rules, recs: seq<Record>, i: nat)
    requires i < |recs| && Repeats(recs, i)
    requires forall s :: '"' !in rules.slugify(s)
    requires forall item, charges :: rules.itemMarkup(item, charges) == ItemMarkup(item, charges)
    ensures HeadingId(TriggeredBlock(rules, recs, i)) == Some(rules.slugify(recs[i].nameFull))
  {
    var occ := Occurrences(recs[..i + 1], recs[i].nameFull);
    var first := Stored(rules, occ)[0];
    RenormalizeSlug(rules, occ[0], |occ| - 1);
    assert first.slug == rules.slugify(recs[i].nameFull);
    HeadingIdOfItem(first, rules.chargeMarkup(first, rules.colon(first.charge))
      + rules.chargeMarkup(Stored(rules, occ)[1], rules.colon(Stored(rules, occ)[1].charge)));
  }
}
