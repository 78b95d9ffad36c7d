/** The hierarchical configuration the kernels read their settings from:
    typed entries plus named sublists. Only lookups are modelled. */
module ParameterLists {

  datatype ParameterList = ParameterList(
    strings: map<string, string>,
    reals: map<string, real>,
    bools: map<string, bool>,
    sublists: map<string, ParameterList>)
  {
    /** `get<std::string>(name, default)`: the entry if present, else the default. */
    function GetString(name: string, default: string): string {
      if name in strings then strings[name] else default
    }

    /** `get<double>(name, default)`. */
    function GetReal(name: string, default: real): real {
      if name in reals then reals[name] else default
    }

    /** `get<bool>(name, default)`. */
    function GetBool(name: string, default: bool): bool {
      if name in bools then bools[name] else default
    }

    /** `isSublist(name)`. */
    predicate IsSublist(name: string) {
      name in sublists
    }

    /** `sublist(name)` on a mutable list: a missing sublist reads as empty. */
    function Sublist(name: string): ParameterList {
      if name in sublists then sublists[name] else EmptyList()
    }
  }

  function EmptyList(): ParameterList {
    ParameterList(map[], map[], map[], map[])
  }
}
