/** Assembling operator classes from the configuration (irc/config.go): each class may extend another one
    and inherits its capabilities. */
module OperClasses {
  import opened Common

  datatype ClassConfig = ClassConfig(title: string, whoisLine: string, extended: string, capabilities: seq<string>)

  datatype OperClass = OperClass(title: string, whoisLine: string, capabilities: set<string>)

  datatype Error = LoopingDependency | ExtendsMissing

  type Classes = map<string, ClassConfig>

  function TrimPrefix(s: string, prefix: string): string {
    if prefix <= s then s[|prefix|..] else s
  }

  function FixupCapability(capab: string): string {
    TrimPrefix(TrimPrefix(capab, "oper:"), "local_")
  }

  /** Both prefixes are taken away, the first one first, and nothing else is. */
  lemma {:induction false} FixupOutcome(capab: string, rest: string)
    ensures FixupCapability("oper:local_" + rest) == rest && FixupCapability("local_" + rest) == rest
    ensures !("local_" <= rest) ==> FixupCapability("oper:" + rest) == rest
    ensures !("oper:" <= capab) && !("local_" <= capab) ==> FixupCapability(capab) == capab
  {
    assert ("oper:local_" + rest)[..5] == "oper:" && ("oper:local_" + rest)[5..] == "local_" + rest;
    assert ("local_" + rest)[..6] == "local_" && ("local_" + rest)[6..] == rest;
    assert ("oper:" + rest)[..5] == "oper:" && ("oper:" + rest)[5..] == rest;
    assert ("local_" + rest)[0] == 'l' && "oper:"[0] == 'o';
  }

  function Fixup(capabs: set<string>): set<string> {
    set c | c in capabs :: FixupCapability(c)
  }

  function Elements(capabs: seq<string>): set<string> {
    set c | c in capabs
  }

  function Own(info: ClassConfig): set<string> {
    Elements(info.capabilities)
  }

  function Title(info: ClassConfig): string {
    if info.title == "" then "IRC operator" else info.title
  }

  /** The article is "a" even before a vowel: the code asks whether the first letter contains "aeiou". */
  function WhoisLine(info: ClassConfig): string {
    if info.whoisLine == "" then "is a " + Title(info) else info.whoisLine
  }

  // ---------------------------------------------------------------- what the classes should be

  /** The chain of extended classes ends within n steps, and all of them exist. */
  predicate ResolvesIn(conf: Classes, name: string, n: nat)
    decreases n
  {
    name in conf && (conf[name].extended == "" || (n > 0 && ResolvesIn(conf, conf[name].extended, n - 1)))
  }

  ghost predicate Resolves(conf: Classes, name: string) {
    exists n: nat :: ResolvesIn(conf, name, n)
  }

  /** A class has its own capabilities and those of the class it extends, fixed up once more. */
  ghost predicate IsAssembled(conf: Classes, ocs: map<string, OperClass>, name: string) {
    && name in conf && name in ocs
    && ocs[name].title == Title(conf[name]) && ocs[name].whoisLine == WhoisLine(conf[name])
    && (conf[name].extended != "" ==> conf[name].extended in ocs)
    && ocs[name].capabilities ==
         Fixup(Own(conf[name])) + if conf[name].extended == "" then {} else Fixup(ocs[conf[name].extended].capabilities)
  }

  lemma {:induction false} ParentResolves(conf: Classes, name: string)
    ensures Resolves(conf, name) <==> name in conf && (conf[name].extended == "" || Resolves(conf, conf[name].extended))
  {
    if Resolves(conf, name) {
      var n: nat :| ResolvesIn(conf, name, n);
      if conf[name].extended != "" {
        assert ResolvesIn(conf, conf[name].extended, n - 1);
      }
    }
    if name in conf && conf[name].extended == "" {
      assert ResolvesIn(conf, name, 0);
    }
    if name in conf && Resolves(conf, conf[name].extended) {
      var n: nat :| ResolvesIn(conf, conf[name].extended, n);
      assert ResolvesIn(conf, name, n + 1);
    }
  }

  /** Classes that only extend each other never resolve. */
  lemma {:induction false} ClosedNeverResolves(conf: Classes, stuck: set<string>, name: string, n: nat)
    requires forall s :: s in stuck ==> s in conf && conf[s].extended != "" && conf[s].extended in stuck
    requires name in stuck
    ensures !ResolvesIn(conf, name, n)
    decreases n
  {
    if n > 0 {
      ClosedNeverResolves(conf, stuck, conf[name].extended, n - 1);
    }
  }

  /** What is assembled does not depend on the order in which the code comes across the classes. */
  lemma {:induction false} AssemblyIsUnique(conf: Classes, a: map<string, OperClass>, b: map<string, OperClass>, name: string, n: nat)
    requires forall c :: c in conf ==> IsAssembled(conf, a, c) && IsAssembled(conf, b, c)
    requires ResolvesIn(conf, name, n)
    ensures name in a && name in b && a[name] == b[name]
    decreases n
  {
    assert IsAssembled(conf, a, name) && IsAssembled(conf, b, name);
    if conf[name].extended != "" {
      AssemblyIsUnique(conf, a, b, conf[name].extended, n - 1);
    }
  }

  // ---------------------------------------------------------------- the loop

  /** A class that cannot be added yet, because the one it extends is not there. */
  predicate Waits(conf: Classes, ocs: map<string, OperClass>, name: string) {
    && name in conf && name !in ocs
    && conf[name].extended != "" && conf[name].extended !in ocs && conf[name].extended in conf
  }

  ghost predicate AllAssembled(conf: Classes, ocs: map<string, OperClass>) {
    forall name :: name in ocs ==> IsAssembled(conf, ocs, name) && Resolves(conf, name)
  }

  ghost predicate SomeExtendsMissing(conf: Classes) {
    exists name :: name in conf && conf[name].extended != "" && conf[name].extended !in conf
  }

  method NewClass(conf: Classes, ocs: map<string, OperClass>, name: string) returns (oc: OperClass)
    requires name in conf && (conf[name].extended != "" ==> conf[name].extended in ocs)
    ensures oc.title == Title(conf[name]) && oc.whoisLine == WhoisLine(conf[name])
    ensures oc.title == if conf[name].title == "" then "IRC operator" else conf[name].title
    ensures oc.whoisLine == if conf[name].whoisLine == "" then "is a " + oc.title else conf[name].whoisLine
    ensures forall capab :: capab in conf[name].capabilities ==> FixupCapability(capab) in oc.capabilities
    ensures conf[name].extended != "" ==>
              forall capab :: capab in ocs[conf[name].extended].capabilities ==> FixupCapability(capab) in oc.capabilities
    ensures oc.capabilities ==
              Fixup(Own(conf[name])) + if conf[name].extended == "" then {} else Fixup(ocs[conf[name].extended].capabilities)
  {
    var info := conf[name];
    var inherited := {};
    if info.extended != "" {
      inherited := FixupAll(ocs[info.extended].capabilities);
    }
    var own := FixupEach(info.capabilities);
    oc := OperClass(Title(info), WhoisLine(info), inherited + own);
  }

  method FixupAll(capabs: set<string>) returns (fixed: set<string>)
    ensures fixed == Fixup(capabs)
  {
    fixed := {};
    var todo := capabs;
    while todo != {}
      invariant todo <= capabs && fixed == Fixup(capabs - todo)
      decreases todo
    {
      var capab :| capab in todo;
      FixupOneMore(capabs, todo, capab);
      fixed := fixed + {FixupCapability(capab)};
      todo := todo - {capab};
    }
    assert capabs - todo == capabs;
  }

  method FixupEach(capabs: seq<string>) returns (fixed: set<string>)
    ensures fixed == Fixup(Elements(capabs))
  {
    fixed := {};
    for i := 0 to |capabs|
      invariant fixed == Fixup(Elements(capabs[..i]))
    {
      assert capabs[..i + 1] == capabs[..i] + [capabs[i]];
      assert Elements(capabs[..i + 1]) == Elements(capabs[..i]) + {capabs[i]};
      FixupOfUnion(Elements(capabs[..i]), capabs[i]);
      fixed := fixed + {FixupCapability(capabs[i])};
    }
    assert capabs[..|capabs|] == capabs;
  }

  lemma {:induction false} FixupOfUnion(capabs: set<string>, capab: string)
    ensures Fixup(capabs + {capab}) == Fixup(capabs) + {FixupCapability(capab)}
  {
  }

  lemma {:induction false} FixupOneMore(all: set<string>, todo: set<string>, capab: string)
    requires capab in todo && todo <= all
    ensures Fixup(all - (todo - {capab})) == Fixup(all - todo) + {FixupCapability(capab)}
  {
    assert all - (todo - {capab}) == (all - todo) + {capab};
    FixupOfUnion(all - todo, capab);
  }

  lemma {:induction false} OneMoreAssembled(conf: Classes, ocs: map<string, OperClass>, name: string, oc: OperClass)
    requires AllAssembled(conf, ocs) && name in conf && name !in ocs
    requires conf[name].extended == "" || conf[name].extended in ocs
    requires oc.title == Title(conf[name]) && oc.whoisLine == WhoisLine(conf[name])
    requires oc.capabilities ==
               Fixup(Own(conf[name])) + if conf[name].extended == "" then {} else Fixup(ocs[conf[name].extended].capabilities)
    ensures AllAssembled(conf, ocs[name := oc]) && |ocs[name := oc]| == |ocs| + 1
  {
    var more := ocs[name := oc];
    ParentResolves(conf, name);
    forall c | c in more ensures IsAssembled(conf, more, c) && Resolves(conf, c) {
      if c != name {
        assert IsAssembled(conf, ocs, c);
      }
    }
  }

  /** Within a pass that began with `start`, with the classes of `todo` still to come. */
  ghost predicate Passing(conf: Classes, start: map<string, OperClass>, more: map<string, OperClass>, anyMissing: bool, todo: set<string>) {
    && AllAssembled(conf, more) && |more| >= |start| && start.Keys <= more.Keys && (|more| == |start| ==> more == start)
    && (forall name :: name in conf && name !in todo ==> Visited(conf, start, more, anyMissing, name))
    && (anyMissing ==> exists name :: name in conf && name !in start)
  }

  ghost predicate Visited(conf: Classes, start: map<string, OperClass>, more: map<string, OperClass>, anyMissing: bool, name: string)
    requires name in conf
  {
    && (conf[name].extended == "" || conf[name].extended in conf)
    && (!anyMissing ==> name in more)
    && (|more| == |start| && name !in more ==> Waits(conf, more, name))
  }

  /** One class of a pass: it is there already, has to wait, or is added. */
  method Visit(conf: Classes, ghost start: map<string, OperClass>, more: map<string, OperClass>, anyMissing: bool,
               ghost todo: set<string>, name: string)
    returns (result: Result<(map<string, OperClass>, bool), Error>)
    requires Passing(conf, start, more, anyMissing, todo) && name in todo && name in conf
    ensures result.Err? <==> name !in more && conf[name].extended != "" && conf[name].extended !in conf
    ensures result.Err? ==> result.error == ExtendsMissing
    ensures result.Ok? ==> Passing(conf, start, result.value.0, result.value.1, todo - {name})
  {
    var info := conf[name];
    if name in more {
      AssembledParentExists(conf, more, name);
      return Ok((more, anyMissing));
    } else if info.extended != "" && info.extended !in more {
      // has to wait, if there is something to wait for
      if info.extended !in conf {
        return Err(ExtendsMissing);
      }
      return Ok((more, true));
    } else {
      if info.extended != "" {
        assert IsAssembled(conf, more, info.extended);
      }
      var oc := NewClass(conf, more, name);
      OneMoreAssembled(conf, more, name, oc);
      AddedIsVisited(conf, start, more, anyMissing, todo, name, oc);
      return Ok((more[name := oc], anyMissing));
    }
  }

  lemma {:induction false} AddedIsVisited(conf: Classes, start: map<string, OperClass>, more: map<string, OperClass>, anyMissing: bool,
                       todo: set<string>, name: string, oc: OperClass)
    requires Passing(conf, start, more, anyMissing, todo) && name in conf && name !in more
    requires conf[name].extended == "" || conf[name].extended in conf
    requires AllAssembled(conf, more[name := oc]) && |more[name := oc]| == |more| + 1
    ensures Passing(conf, start, more[name := oc], anyMissing, todo - {name})
  {
    forall c | c in conf && c !in todo - {name} ensures Visited(conf, start, more[name := oc], anyMissing, c) {
      if c != name {
        assert Visited(conf, start, more, anyMissing, c);
      }
    }
  }

  lemma {:induction false} AssembledParentExists(conf: Classes, ocs: map<string, OperClass>, name: string)
    requires AllAssembled(conf, ocs) && name in ocs
    ensures name in conf && (conf[name].extended == "" || conf[name].extended in conf)
  {
    assert IsAssembled(conf, ocs, name);
    if conf[name].extended != "" {
      assert IsAssembled(conf, ocs, conf[name].extended);
    }
  }

  /** One pass over the configured classes, in any order. */
  method Pass(conf: Classes, ocs: map<string, OperClass>) returns (result: Result<(map<string, OperClass>, bool), Error>)
    requires AllAssembled(conf, ocs)
    ensures result.Err? ==> result.error == ExtendsMissing && SomeExtendsMissing(conf)
    ensures result.Ok? ==> !SomeExtendsMissing(conf) && Passing(conf, ocs, result.value.0, result.value.1, {})
  {
    var more, anyMissing := ocs, false;
    var todo := conf.Keys;
    while todo != {}
      invariant todo <= conf.Keys && Passing(conf, ocs, more, anyMissing, todo)
      decreases todo
    {
      var name :| name in todo;
      var visit := Visit(conf, ocs, more, anyMissing, todo, name);
      if visit.Err? {
        return Err(visit.error);
      }
      more, anyMissing := visit.value.0, visit.value.1;
      todo := todo - {name};
    }
    assert forall name :: name in conf ==> Visited(conf, ocs, more, anyMissing, name);
    return Ok((more, anyMissing));
  }

  /** Succeeds exactly if the chain of every class ends, and fails for a missing class exactly if some class
      extends one that does not exist. */
  method OperatorClasses(conf: Classes) returns (result: Result<map<string, OperClass>, Error>)
    ensures result.Ok? <==> forall name :: name in conf ==> Resolves(conf, name)
    ensures result == Err(ExtendsMissing) <==> SomeExtendsMissing(conf)
    ensures result.Ok? ==> result.value.Keys == conf.Keys && forall name :: name in conf ==> IsAssembled(conf, result.value, name)
  {
    var ocs: map<string, OperClass> := map[];
    var lenOfLastOcs := -1;
    while true
      invariant AllAssembled(conf, ocs) && ocs.Keys <= conf.Keys && lenOfLastOcs <= |ocs|
      invariant lenOfLastOcs >= 0 ==> !SomeExtendsMissing(conf)
      invariant lenOfLastOcs == |ocs| ==> ocs.Keys != conf.Keys && forall name :: name in conf && name !in ocs ==> Waits(conf, ocs, name)
      decreases |conf| - lenOfLastOcs
    {
      SmallerKeys(ocs.Keys, conf.Keys);
      if lenOfLastOcs == |ocs| {
        StuckNeverResolves(conf, ocs);
        return Err(LoopingDependency);
      }
      lenOfLastOcs := |ocs|;
      var pass := Pass(conf, ocs);
      if pass.Err? {
        MissingNeverResolves(conf);
        return Err(pass.error);
      }
      var (more, anyMissing) := pass.value;
      assert forall name :: name in conf ==> Visited(conf, ocs, more, anyMissing, name);
      ocs := more;
      assert forall name :: name in ocs ==> IsAssembled(conf, ocs, name);
      if !anyMissing {
        return Ok(ocs);
      }
    }
  }

  lemma {:induction false} SmallerKeys(a: set<string>, b: set<string>)
    requires a <= b
    ensures |a| <= |b|
  {
    assert b == a + (b - a);
  }

  lemma {:induction false} StuckNeverResolves(conf: Classes, ocs: map<string, OperClass>)
    requires ocs.Keys <= conf.Keys && ocs.Keys != conf.Keys
    requires forall name :: name in conf && name !in ocs ==> Waits(conf, ocs, name)
    ensures exists name :: name in conf && !Resolves(conf, name)
  {
    var stuck := conf.Keys - ocs.Keys;
    assert !(conf.Keys <= ocs.Keys);
    var name :| name in conf.Keys && name !in ocs.Keys;
    assert name in stuck;
    forall n: nat ensures !ResolvesIn(conf, name, n) {
      ClosedNeverResolves(conf, stuck, name, n);
    }
  }

  lemma {:induction false} MissingNeverResolves(conf: Classes)
    requires SomeExtendsMissing(conf)
    ensures exists name :: name in conf && !Resolves(conf, name)
  {
    var name :| name in conf && conf[name].extended != "" && conf[name].extended !in conf;
    ParentResolves(conf, name);
  }

  // ---------------------------------------------------------------- what is inherited

  function FixupTimes(capab: string, times: nat): string {
    if times == 0 then capab else FixupCapability(FixupTimes(capab, times - 1))
  }

  /** The class that is reached after following `distance` extensions. */
  function Ancestor(conf: Classes, name: string, distance: nat): string
    decreases distance
  {
    if distance == 0 || name !in conf then name else Ancestor(conf, conf[name].extended, distance - 1)
  }

  /** Where a capability of an assembled class comes from. */
  ghost predicate ComesFrom(conf: Classes, name: string, capab: string, distance: nat, source: string) {
    && (forall d :: 0 <= d < distance ==> Ancestor(conf, name, d) in conf && conf[Ancestor(conf, name, d)].extended != "")
    && Ancestor(conf, name, distance) in conf
    && source in conf[Ancestor(conf, name, distance)].capabilities
    && capab == FixupTimes(source, distance + 1)
  }

  /** A capability of a class is one of an ancestor, fixed up once for each level in between and once more. */
  lemma {:induction false} CapabilitiesComeFromAncestors(conf: Classes, ocs: map<string, OperClass>, name: string, n: nat, capab: string)
    requires (forall c :: c in conf ==> IsAssembled(conf, ocs, c)) && ResolvesIn(conf, name, n)
    ensures name in ocs
    ensures capab in ocs[name].capabilities <==> exists distance, source :: ComesFrom(conf, name, capab, distance, source)
    decreases n
  {
    assert IsAssembled(conf, ocs, name);
    var info := conf[name];
    if capab in ocs[name].capabilities {
      if own :| own in info.capabilities && FixupCapability(own) == capab {
        assert FixupTimes(own, 1) == FixupCapability(FixupTimes(own, 0));
        assert ComesFrom(conf, name, capab, 0, own);
      } else {
        var inherited :| inherited in ocs[info.extended].capabilities && FixupCapability(inherited) == capab;
        CapabilitiesComeFromAncestors(conf, ocs, info.extended, n - 1, inherited);
        var distance, source :| ComesFrom(conf, info.extended, inherited, distance, source);
        OneMoreLevel(conf, name, inherited, distance, source);
      }
    }
    if distance, source :| ComesFrom(conf, name, capab, distance, source) {
      if distance == 0 {
        assert capab == FixupCapability(FixupTimes(source, 0)) && source in Own(info);
      } else {
        assert Ancestor(conf, name, 0) == name;
        OneLevelLess(conf, name, capab, distance, source);
        CapabilitiesComeFromAncestors(conf, ocs, info.extended, n - 1, FixupTimes(source, distance));
        assert FixupTimes(source, distance) in ocs[info.extended].capabilities;
      }
    }
  }

  lemma {:induction false} OneMoreLevel(conf: Classes, name: string, inherited: string, distance: nat, source: string)
    requires name in conf && conf[name].extended != "" && ComesFrom(conf, conf[name].extended, inherited, distance, source)
    ensures ComesFrom(conf, name, FixupCapability(inherited), distance + 1, source)
  {
    forall d | 0 <= d < distance + 1 ensures Ancestor(conf, name, d) in conf && conf[Ancestor(conf, name, d)].extended != "" {
      if d > 0 {
        assert Ancestor(conf, name, d) == Ancestor(conf, conf[name].extended, d - 1);
      }
    }
  }

  lemma {:induction false} OneLevelLess(conf: Classes, name: string, capab: string, distance: nat, source: string)
    requires ComesFrom(conf, name, capab, distance, source) && distance > 0 && name in conf
    ensures ComesFrom(conf, conf[name].extended, FixupTimes(source, distance), distance - 1, source)
    ensures capab == FixupCapability(FixupTimes(source, distance))
  {
    forall d | 0 <= d < distance - 1
      ensures Ancestor(conf, conf[name].extended, d) in conf && conf[Ancestor(conf, conf[name].extended, d)].extended != ""
    {
      assert Ancestor(conf, name, d + 1) == Ancestor(conf, conf[name].extended, d);
    }
  }

  // ---------------------------------------------------------------- when nothing is lost by extending a class

  /** The configuration assembles to these classes, and all its capabilities are from `raw`. */
  ghost predicate Assembles(conf: Classes, ocs: map<string, OperClass>, raw: iset<string>) {
    && ocs.Keys == conf.Keys
    && (forall name :: name in conf ==> Resolves(conf, name) && IsAssembled(conf, ocs, name))
    && (forall name, capab :: name in conf && capab in conf[name].capabilities ==> capab in raw)
  }

  /** Every class has at least the capabilities of the class it extends. */
  ghost predicate NothingIsLost(conf: Classes, ocs: map<string, OperClass>)
    requires conf.Keys == ocs.Keys
  {
    forall name :: name in conf && conf[name].extended != "" && conf[name].extended in conf ==>
      ocs[conf[name].extended].capabilities <= ocs[name].capabilities
  }

  ghost predicate AlwaysInherits(raw: iset<string>) {
    forall conf, ocs :: Assembles(conf, ocs, raw) ==> NothingIsLost(conf, ocs)
  }

  predicate IsFixedOnce(capab: string) {
    FixupCapability(FixupCapability(capab)) == FixupCapability(capab)
  }

  /** If fixing up twice is fixing up once, the capabilities of assembled classes do not change any more. */
  lemma {:induction false} AssembledAreFixed(conf: Classes, ocs: map<string, OperClass>, raw: iset<string>, name: string, n: nat)
    requires Assembles(conf, ocs, raw) && ResolvesIn(conf, name, n) && forall capab :: capab in raw ==> IsFixedOnce(capab)
    ensures name in ocs && forall capab :: capab in ocs[name].capabilities ==> FixupCapability(capab) == capab
    decreases n
  {
    assert IsAssembled(conf, ocs, name);
    if conf[name].extended != "" {
      AssembledAreFixed(conf, ocs, raw, conf[name].extended, n - 1);
    }
    forall capab | capab in ocs[name].capabilities ensures FixupCapability(capab) == capab {
      if capab in Fixup(Own(conf[name])) {
        var own :| own in Own(conf[name]) && capab == FixupCapability(own);
        assert IsFixedOnce(own);
      }
    }
  }

  lemma {:induction false} FixedOnceIsKept(conf: Classes, ocs: map<string, OperClass>, raw: iset<string>)
    requires Assembles(conf, ocs, raw) && forall capab :: capab in raw ==> IsFixedOnce(capab)
    ensures NothingIsLost(conf, ocs)
  {
    forall name | name in conf && conf[name].extended != "" && conf[name].extended in conf
      ensures ocs[conf[name].extended].capabilities <= ocs[name].capabilities
    {
      var parent := conf[name].extended;
      assert Resolves(conf, parent) && IsAssembled(conf, ocs, name);
      var n: nat :| ResolvesIn(conf, parent, n);
      AssembledAreFixed(conf, ocs, raw, parent, n);
      forall capab | capab in ocs[parent].capabilities ensures capab in Fixup(ocs[parent].capabilities) {
        assert FixupCapability(capab) == capab;
      }
    }
  }

  /** A class without capabilities of its own that extends a class with this one. */
  lemma {:induction false} ExtendingLoses(capab: string) returns (conf: Classes, ocs: map<string, OperClass>)
    requires !IsFixedOnce(capab)
    ensures Assembles(conf, ocs, iset{capab}) && "child" in conf && conf["child"].extended == "parent"
    ensures FixupCapability(capab) in ocs["parent"].capabilities && FixupCapability(capab) !in ocs["child"].capabilities
    ensures !NothingIsLost(conf, ocs)
  {
    var parent, child := ClassConfig("", "", "", [capab]), ClassConfig("", "", "parent", []);
    conf := map["parent" := parent, "child" := child];
    var fixed, twice := FixupCapability(capab), FixupCapability(FixupCapability(capab));
    ocs := map["parent" := OperClass(Title(parent), WhoisLine(parent), {fixed}),
               "child" := OperClass(Title(child), WhoisLine(child), {twice})];
    assert Own(parent) == {capab} && Own(child) == {} && Fixup({capab}) == {fixed} && Fixup({fixed}) == {twice} && Fixup({}) == {};
    assert IsAssembled(conf, ocs, "parent") && IsAssembled(conf, ocs, "child");
    assert ResolvesIn(conf, "parent", 0) && ResolvesIn(conf, "child", 1);
  }

  lemma {:induction false} AssemblesFromMore(conf: Classes, ocs: map<string, OperClass>, raw: iset<string>, more: iset<string>)
    requires Assembles(conf, ocs, raw) && raw <= more
    ensures Assembles(conf, ocs, more)
  {
  }

  lemma {:induction false} OneUnfixedLoses(raw: iset<string>, capab: string)
    requires capab in raw && !IsFixedOnce(capab)
    ensures !AlwaysInherits(raw)
  {
    var conf, ocs := ExtendingLoses(capab);
    AssemblesFromMore(conf, ocs, iset{capab}, raw);
  }

  /** Whatever capabilities a configuration is made of, classes keep those of the class they extend if and
      only if for each of them fixing it up twice is the same as fixing it up once. */
  lemma {:induction false} InheritsExactlyIfFixedOnce(raw: iset<string>)
    ensures AlwaysInherits(raw) <==> forall capab :: capab in raw ==> IsFixedOnce(capab)
  {
    if capab :| capab in raw && !IsFixedOnce(capab) {
      OneUnfixedLoses(raw, capab);
    } else {
      forall conf: Classes, ocs: map<string, OperClass> | Assembles(conf, ocs, raw) ensures NothingIsLost(conf, ocs) {
        FixedOnceIsKept(conf, ocs, raw);
      }
    }
  }

  /** There are such configurations: a prefix that is written twice. */
  lemma {:induction false} DoublePrefixIsLost() returns (conf: Classes, ocs: map<string, OperClass>)
    ensures Assembles(conf, ocs, iset{"oper:oper:samode"}) && !NothingIsLost(conf, ocs)
  {
    var twice, once := "oper:oper:samode", "oper:samode";
    assert twice[..5] == "oper:" && twice[5..] == once;
    assert once[..5] == "oper:" && once[5..] == "samode";
    assert once[0] == 'o' && "samode"[0] == 's' && "local_"[0] == 'l';
    assert FixupCapability(twice) == once && FixupCapability(once) == "samode";
    conf, ocs := ExtendingLoses(twice);
  }
}
