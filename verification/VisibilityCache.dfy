/** The cache that holds the user's un-ignore lines in nested dictionaries. */
module VisibilityCache {
  import opened Wrappers
  import opened Text
  import opened ParamsetKeys
  import opened UnIgnore
  import opened Visibility

  type Nested = map<string, map<Channel, map<ParamsetKey, set<string>>>>

  function RulesIn(n: Nested): set<Rule> {
    set m, c, k, p | m in n && c in n[m] && k in n[m][c] && p in n[m][c][k] :: Rule(m, c, k, p)
  }

  function PairsIn(relevant: map<string, set<Channel>>): set<(string, Channel)> {
    set m, c | m in relevant && c in relevant[m] :: (m, c)
  }

  function Insert(n: Nested, x: Rule): Nested {
    var channels := if x.model in n then n[x.model] else map[];
    var keys := if x.channel in channels then channels[x.channel] else map[];
    var parameters := if x.paramset in keys then keys[x.paramset] else {};
    n[x.model := channels[x.channel := keys[x.paramset := parameters + {x.parameter}]]]
  }

  lemma InsertAdds(n: Nested, x: Rule)
    ensures RulesIn(Insert(n, x)) == RulesIn(n) + {x}
  {
    forall y ensures y in RulesIn(Insert(n, x)) <==> y in RulesIn(n) || y == x {
    }
  }

  class ParameterVisibilityCache {
    var values: set<string>
    var complex: Nested
    var relevantMaster: map<string, set<Channel>>
    var ignoreCustom: seq<string>

    /** What the fields stand for. */
    function View(): Rules
      reads this
    {
      Rules(values, RulesIn(complex), PairsIn(relevantMaster), set m | m in ignoreCustom)
    }

    /** The built-in relevant paramsets are there from the start. */
    constructor (relevant: map<string, set<Channel>>)
      ensures View() == Rules({}, {}, PairsIn(relevant), {})
    {
      values, complex, relevantMaster, ignoreCustom := {}, map[], relevant, [];
    }

    method AddComplexEntry(model: string, c: Channel, paramset: ParamsetKey, parameter: string)
      modifies this
      ensures View() == AddEntry(old(View()), model, c, paramset, parameter)
    {
      if paramset == Master {
        if c.Word? {
          return;
        }
        var channels := if model in relevantMaster then relevantMaster[model] else {};
        relevantMaster := relevantMaster[model := channels + {c}];
        assert PairsIn(relevantMaster) == PairsIn(old(relevantMaster)) + {(model, c)};
        if model == WILDCARD {
          return;
        }
      }
      InsertAdds(complex, Rule(model, c, paramset, parameter));
      complex := Insert(complex, Rule(model, c, paramset, parameter));
    }

    /** `_add_line_to_cache`; false where it raises. */
    method AddLineToCache(line: string) returns (ok: bool)
      modifies this
      ensures ok <==> AddLine(old(View()), line).Some?
      ensures View() == if ok then AddLine(old(View()), line).value else old(View())
    {
      hide ReadLine, IsBlank, RemoveAll, Lower;
      if IsBlank(line) {
        return true;
      }
      if IGNORE_MODEL <= Lower(line) {
        ignoreCustom := ignoreCustom + [RemoveAll(Lower(line), IGNORE_MODEL)];
        return true;
      }
      match ReadLine(line) {
        case Unsupported =>
        case Crash => return false;
        case Bare(parameter) =>
          if parameter != "" {
            values := values + {parameter};
          }
        case Entry(model, c, parameter, paramset) =>
          AddComplexEntry(model, c, paramset, parameter);
      }
      return true;
    }

    /** The loop of `load` over the collected lines. */
    method LoadLines(lines: seq<string>) returns (ok: bool)
      modifies this
      ensures ok <==> Load(old(View()), lines).Some?
      ensures ok ==> View() == Load(old(View()), lines).value
    {
      hide AddLine, View;
      for i := 0 to |lines|
        invariant Load(old(View()), lines[..i]) == Some(View())
      {
        assert lines[..i + 1][..i] == lines[..i];
        if '#' !in lines[i] {
          var added := AddLineToCache(lines[i]);
          if !added {
            FailureStays(old(View()), lines, i + 1);
            return false;
          }
        }
      }
      assert lines[..|lines|] == lines;
      return true;
    }

    /** The search of `_parameter_is_un_ignored` through the nested dictionaries. */
    method IsNamed(model: string, c: Channel, paramset: ParamsetKey, parameter: string) returns (named: bool)
      ensures named <==> NamedByRule(View(), model, c, paramset, parameter)
    {
      var matrix := SearchMatrix(model, c, paramset);
      for i := 0 to |matrix|
        invariant forall j :: 0 <= j < i ==> Rule(matrix[j].0, matrix[j].1, paramset, parameter) !in View().entries
      {
        var (m, no) := matrix[i];
        if m in complex && no in complex[m] && paramset in complex[m][no] && parameter in complex[m][no][paramset] {
          assert Rule(m, no, paramset, parameter) in View().entries;
          return true;
        }
      }
      return false;
    }
  }

  lemma {:induction false} FailureStays(r: Rules, lines: seq<string>, i: nat)
    requires i <= |lines| && Load(r, lines[..i]).None?
    ensures Load(r, lines).None?
  {
    hide AddLine;
    if i < |lines| {
      assert lines[..|lines| - 1][..i] == lines[..i];
      FailureStays(r, lines[..|lines| - 1], i);
    } else {
      assert lines[..i] == lines;
    }
  }
}
