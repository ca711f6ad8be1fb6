/**
 * The DecimalsToString status translator. A lookup holds rules
 * (trigger, label) sorted by descending trigger, a bound on the codes it
 * covers and the label for code 0. A non-zero code is decomposed in one
 * pass over the rules: a rule whose trigger is at most what remains of the
 * code emits its label and its trigger is subtracted. Labels are joined
 * with single spaces in the order they were emitted. Whatever the rules do
 * not account for is reported as a final UNKNOWN_<n> label, so no part of
 * the code is dropped.
 */
module Translate {
  import Text

  datatype Rule = Rule(trigger: nat, name: string)

  datatype Lookup = Lookup(name: string, bound: nat, okLabel: string, rules: seq<Rule>)

  /** Strictly descending triggers. */
  ghost predicate Descending(rules: seq<Rule>)
  {
    forall i, j :: 0 <= i < j < |rules| ==> rules[i].trigger > rules[j].trigger
  }

  /** Neighbouring triggers descend: the form in which a table is checked. */
  predicate StepsDown(rules: seq<Rule>)
  {
    forall i :: 0 <= i < |rules| - 1 ==> rules[i].trigger > rules[i + 1].trigger
  }

  lemma {:induction false} StepsDownDescending(rules: seq<Rule>)
    requires StepsDown(rules)
    ensures Descending(rules)
  {
    if |rules| > 1 {
      StepsDownDescending(rules[1..]);
      assert StepsDown(rules[1..]);
      forall j | 1 <= j < |rules| ensures rules[0].trigger > rules[j].trigger {
        if j > 1 {
          assert rules[1..][0] == rules[1] && rules[1..][j - 1] == rules[j];
        }
      }
    }
  }

  const UnknownPrefix := "UNKNOWN_"

  /** A rule's label is never the OK label, so a single printed label cannot be mistaken for it. */
  predicate LabelOk(l: Lookup, s: string)
  {
    s != l.okLabel
  }

  ghost predicate WellFormed(l: Lookup)
  {
    Descending(l.rules) &&
    (forall i :: 0 <= i < |l.rules| ==> 0 < l.rules[i].trigger <= l.bound && LabelOk(l, l.rules[i].name)) &&
    ' ' !in l.okLabel && !(|l.okLabel| >= |UnknownPrefix| && l.okLabel[..|UnknownPrefix|] == UnknownPrefix)
  }

  function Sum(picked: seq<Rule>): nat
  {
    if picked == [] then 0 else picked[0].trigger + Sum(picked[1..])
  }

  /**
   * One pass over the rules from position `from` on: the rules taken, in
   * order, and what remains of the code. The triggers taken and the
   * remainder add up to the code, every rule taken is one of those visited,
   * and a visited rule not taken has a trigger larger than the remainder.
   */
  function Greedy(rules: seq<Rule>, from: nat, code: nat): (r: (seq<Rule>, nat))
    requires from <= |rules|
    ensures Sum(r.0) + r.1 == code
    ensures forall x :: x in r.0 ==> x in rules[from..]
    ensures forall i :: from <= i < |rules| && rules[i] !in r.0 ==> r.1 < rules[i].trigger
    decreases |rules| - from
  {
    if from == |rules| then ([], code)
    else if rules[from].trigger <= code then
      var (p, rest) := Greedy(rules, from + 1, code - rules[from].trigger);
      ([rules[from]] + p, rest)
    else
      Greedy(rules, from + 1, code)
  }

  /** A subsequence of the rules, in their order. */
  ghost predicate InOrderOf(p: seq<Rule>, rules: seq<Rule>)
    decreases |rules|
  {
    if p == [] then true
    else if rules == [] then false
    else if p[0] == rules[0] then InOrderOf(p[1..], rules[1..])
    else InOrderOf(p, rules[1..])
  }

  lemma {:induction false} GreedyInOrder(rules: seq<Rule>, from: nat, code: nat)
    requires from <= |rules|
    ensures InOrderOf(Greedy(rules, from, code).0, rules[from..])
    decreases |rules| - from
  {
    if from < |rules| {
      var tail := rules[from..];
      assert tail != [] && tail[0] == rules[from] && tail[1..] == rules[from + 1..];
      if rules[from].trigger <= code {
        var p := Greedy(rules, from + 1, code - rules[from].trigger).0;
        GreedyInOrder(rules, from + 1, code - rules[from].trigger);
        InOrderCons(p, tail);
        assert Greedy(rules, from, code).0 == [rules[from]] + p;
      } else {
        GreedyInOrder(rules, from + 1, code);
        InOrderSkip(Greedy(rules, from + 1, code).0, tail);
      }
    }
  }

  /** Taking the first rule, then a subsequence of the rest. */
  lemma InOrderCons(p: seq<Rule>, rules: seq<Rule>)
    requires rules != [] && InOrderOf(p, rules[1..])
    ensures InOrderOf([rules[0]] + p, rules)
  {
    assert ([rules[0]] + p)[0] == rules[0] && ([rules[0]] + p)[1..] == p;
  }

  lemma {:induction false} InOrderSkip(p: seq<Rule>, rules: seq<Rule>)
    requires rules != [] && InOrderOf(p, rules[1..])
    ensures InOrderOf(p, rules)
  {
    if p != [] && p[0] == rules[0] {
      if |rules| == 1 {
        assert false;
      } else {
        assert InOrderOf(p[1..], rules[1..][1..]) || InOrderOf(p, rules[1..][1..]);
        if InOrderOf(p[1..], rules[1..][1..]) {
          InOrderSkip(p[1..], rules[1..]);
        } else {
          InOrderSkip(p, rules[1..]);
          InOrderDrop(p, rules[1..]);
        }
      }
    }
  }

  lemma {:induction false} InOrderDrop(p: seq<Rule>, rules: seq<Rule>)
    requires p != [] && InOrderOf(p, rules)
    ensures InOrderOf(p[1..], rules)
  {
    if rules != [] {
      if p[0] == rules[0] {
        if p[1..] != [] {
          InOrderSkip(p[1..], rules);
        }
      } else {
        InOrderDrop(p, rules[1..]);
        if p[1..] != [] {
          InOrderSkip(p[1..], rules);
        }
      }
    }
  }

  /** Taken in table order from a descending table, the labels come out largest trigger first. */
  lemma {:induction false} InOrderDescending(p: seq<Rule>, rules: seq<Rule>)
    requires InOrderOf(p, rules) && Descending(rules)
    ensures Descending(p)
    decreases |rules|
  {
    if p != [] && rules != [] {
      if p[0] == rules[0] {
        InOrderDescending(p[1..], rules[1..]);
        forall j | 1 <= j < |p| ensures p[0].trigger > p[j].trigger {
          InOrderMember(p[1..], rules[1..], j - 1);
        }
      } else {
        InOrderDescending(p, rules[1..]);
      }
    }
  }

  lemma {:induction false} InOrderMember(p: seq<Rule>, rules: seq<Rule>, k: nat)
    requires InOrderOf(p, rules) && k < |p|
    ensures p[k] in rules
    decreases |rules|
  {
    if rules == [] {
      assert false;
    } else if p[0] == rules[0] {
      if k > 0 {
        InOrderMember(p[1..], rules[1..], k - 1);
      }
    } else {
      InOrderMember(p, rules[1..], k);
    }
  }

  function Labels(p: seq<Rule>): (ls: seq<string>)
    ensures |ls| == |p| && forall i :: 0 <= i < |p| ==> ls[i] == p[i].name
  {
    if p == [] then [] else [p[0].name] + Labels(p[1..])
  }

  /** No rule label holds a space. */
  predicate SpaceFree(l: Lookup)
  {
    forall i :: 0 <= i < |l.rules| ==> ' ' !in l.rules[i].name
  }

  /**
   * The labels a non-zero code decomposes into, in the order they are
   * printed: the labels of the rules the pass takes, then one UNKNOWN_<n>
   * label exactly when part of the code is left over.
   */
  function Decompose(l: Lookup, code: nat): (ls: seq<string>)
    ensures code != 0 ==> |ls| >= 1
    ensures var (p, rest) := Greedy(l.rules, 0, code);
      |ls| >= |p| && ls[..|p|] == Labels(p) && (|ls| == |p| <==> rest == 0)
    ensures var (p, rest) := Greedy(l.rules, 0, code);
      rest != 0 ==> |ls| == |p| + 1 && ls[|p|] == UnknownPrefix + Text.Decimal(rest)
    ensures SpaceFree(l) ==> forall i :: 0 <= i < |ls| ==> ' ' !in ls[i]
  {
    var (p, rest) := Greedy(l.rules, 0, code);
    var extra := if rest == 0 then [] else [UnknownPrefix + Text.Decimal(rest)];
    var ls := Labels(p) + extra;
    assert ls[..|p|] == Labels(p);
    assert SpaceFree(l) ==> forall i :: 0 <= i < |ls| ==> ' ' !in ls[i] by {
      if SpaceFree(l) {
        assert l.rules[0..] == l.rules;
        LabelsSpaceFree(l, p, extra, rest);
      }
    }
    ls
  }

  /** The rule labels taken from a space-free table and the UNKNOWN_<n> label hold no space. */
  lemma LabelsSpaceFree(l: Lookup, p: seq<Rule>, extra: seq<string>, rest: nat)
    requires SpaceFree(l) && forall x :: x in p ==> x in l.rules
    requires extra == if rest == 0 then [] else [UnknownPrefix + Text.Decimal(rest)]
    ensures forall i :: 0 <= i < |Labels(p) + extra| ==> ' ' !in (Labels(p) + extra)[i]
  {
    var ls := Labels(p) + extra;
    forall i | 0 <= i < |ls| ensures ' ' !in ls[i] {
      if i < |p| {
        assert p[i] in l.rules;
        var k :| 0 <= k < |l.rules| && l.rules[k] == p[i];
      } else {
        UnknownSpaceFree(rest);
      }
    }
  }

  /** The UNKNOWN_<n> label is the prefix and decimal digits only. */
  lemma UnknownSpaceFree(n: nat)
    ensures ' ' !in UnknownPrefix + Text.Decimal(n)
  {
    Text.DecimalRoundTrip(n);
    PrefixedDigitsSpaceFree(Text.Decimal(n));
  }

  lemma PrefixedDigitsSpaceFree(d: string)
    requires forall i :: 0 <= i < |d| ==> '0' <= d[i] <= '9'
    ensures ' ' !in UnknownPrefix + d
  {
    var u := UnknownPrefix + d;
    forall j | 0 <= j < |u| ensures u[j] != ' ' {
      if j >= |UnknownPrefix| {
        assert u[j] == d[j - |UnknownPrefix|];
      }
    }
  }

  /** The status text of a code: the OK label for 0, else the decomposed labels separated by single spaces. */
  function Translate(l: Lookup, code: nat): (r: string)
    ensures code == 0 ==> r == l.okLabel
    ensures code != 0 && SpaceFree(l) ==> Text.SplitSpaced(r) == Decompose(l, code)
  {
    if code == 0 then l.okLabel
    else
      var ls := Decompose(l, code);
      assert SpaceFree(l) ==> Text.SplitSpaced(Text.JoinSpaced(ls)) == ls by {
        if SpaceFree(l) {
          Text.SplitJoin(ls);
        }
      }
      Text.JoinSpaced(ls)
  }

  /** Code 0, and only code 0, translates to the OK label. */
  lemma TranslateOk(l: Lookup, code: nat)
    requires WellFormed(l)
    ensures Translate(l, code) == l.okLabel <==> code == 0
  {
    if code != 0 {
      var (p, rest) := Greedy(l.rules, 0, code);
      assert l.rules[0..] == l.rules;
      var ls := Decompose(l, code);
      assert |ls| >= 1 by {
        if |p| == 0 { assert rest == code; }
      }
      if |ls| == 1 {
        if |p| == 1 {
          assert p[0] in l.rules;
          var i :| 0 <= i < |l.rules| && l.rules[i] == p[0];
          assert LabelOk(l, l.rules[i].name);
        } else {
          var u := UnknownPrefix + Text.Decimal(rest);
          assert ls[0] == u && u[..|UnknownPrefix|] == UnknownPrefix;
        }
      }
    }
  }

  /** The triggers of the emitted labels and the unknown remainder add back up to the code. */
  lemma TranslateKeepsCode(l: Lookup, code: nat)
    ensures var (p, rest) := Greedy(l.rules, 0, code);
      Sum(p) + rest == code && InOrderOf(p, l.rules) && (Descending(l.rules) ==> Descending(p))
  {
    GreedyInOrder(l.rules, 0, code);
    assert l.rules[0..] == l.rules;
    var p := Greedy(l.rules, 0, code).0;
    if Descending(l.rules) {
      InOrderDescending(p, l.rules);
    }
  }

  /**
   * Read back from the printed labels, the code is kept: the triggers of the
   * rules whose labels head the list, plus the number after UNKNOWN_ in the
   * extra label when there is one, add up to the code.
   */
  lemma DecomposeKeepsCode(l: Lookup, code: nat)
    ensures var (p, rest) := Greedy(l.rules, 0, code);
      var ls := Decompose(l, code);
      ls[..|p|] == Labels(p) &&
      (|ls| > |p| ==> |ls[|p|]| > |UnknownPrefix| && ls[|p|][..|UnknownPrefix|] == UnknownPrefix) &&
      Sum(p) + (if |ls| > |p| then Text.ParseDigits(ls[|p|][|UnknownPrefix|..], 10) else 0) == code
  {
    var (p, rest) := Greedy(l.rules, 0, code);
    var ls := Decompose(l, code);
    if rest != 0 {
      Text.DecimalRoundTrip(rest);
      var u := UnknownPrefix + Text.Decimal(rest);
      assert u[|UnknownPrefix|..] == Text.Decimal(rest);
      assert u[..|UnknownPrefix|] == UnknownPrefix;
    }
  }
}
