/**
 * The string-level option logic of SourceChecker
 * (checkers/source/SourceChecker.java): the lint-option hierarchy and its
 * lazily computed set of active lints, checker-prefixed options, the
 * matching of @SuppressWarnings values, the fallback of message keys, the
 * inferred suppression key and the formatting of stack traces.
 *
 * The processing environment's options are a map from option name to an
 * optional value (-Akey without "=value" has a null value).
 */
module SourceChecker {
  import opened Wrappers
  import opened JavaStrings

  type Options = map<string, Option<string>>

  const IllegalLintOption := "Illegal lint option: "
  const InvalidOptionName := "Invalid option name: "
  const NullPointer := "NullPointerException"
  const StringIndexOutOfBounds := "StringIndexOutOfBoundsException"

  // ---------------------------------------------------------------------
  // The lint hierarchy
  // ---------------------------------------------------------------------

  /** How far a lint name is from the root "all". */
  function Rank(name: string): nat
  {
    if name == "all" then 0 else |name| + 1
  }

  /**
   * parentOfOption: "cast:unsafe" has parent "cast", "cast" has parent
   * "all", and "all" has none.
   */
  function ParentOfOption(name: string): (r: Option<string>)
    ensures r.None? <==> name == "all"
    ensures r.Some? ==> Rank(r.value) < Rank(name)
    ensures r.Some? && ':' in name ==>
      |r.value| < |name| && name[..|r.value|] == r.value && name[|r.value|] == ':' && ':' !in name[|r.value| + 1..]
    ensures r.Some? && ':' !in name ==> r.value == "all"
  {
    if name == "all" then None
    else if ':' in name then Some(name[..LastIndexOfChar(name, ':')])
    else Some("all")
  }

  /** A lint name followed by its parents: the chain always ends at "all", and only there. */
  function Ancestors(name: string): (r: seq<string>)
    ensures |r| >= 1 && r[0] == name && r[|r| - 1] == "all"
    ensures forall j :: 0 <= j < |r| - 1 ==> r[j] != "all"
    decreases Rank(name)
  {
    match ParentOfOption(name)
    case None => [name]
    case Some(p) => [name] + Ancestors(p)
  }

  /** The set of lints names x, positively or as "-x". */
  predicate Mentions(active: set<string>, x: string)
  {
    x in active || "-" + x in active
  }

  /** The lint "-x" disables x; "x" enables it. */
  function Setting(name: string, val: bool): string
  {
    if val then name else "-" + name
  }

  /**
   * The walk of getLintOption: true at the first ancestor that is active,
   * false at the first ancestor whose negation is active (checked in that
   * order for each ancestor), and nothing when no ancestor is mentioned.
   */
  function Walk(active: set<string>, name: string): (r: Option<bool>)
    ensures r.Some? ==> exists i :: 0 <= i < |Ancestors(name)| && Setting(Ancestors(name)[i], r.value) in active
    decreases Rank(name)
  {
    if name in active then
      assert Setting(Ancestors(name)[0], true) in active;
      Some(true)
    else if "-" + name in active then
      assert Setting(Ancestors(name)[0], false) in active;
      Some(false)
    else
      match ParentOfOption(name)
      case None => None
      case Some(p) =>
        var r := Walk(active, p);
        assert Ancestors(name) == [name] + Ancestors(p);
        assert forall i :: 0 <= i < |Ancestors(p)| ==> Ancestors(name)[i + 1] == Ancestors(p)[i];
        r
  }

  /** The value of a lint option: the default when nothing is active or the walk finds no mention. */
  function LintValue(active: set<string>, name: string, def: bool): bool
  {
    if active == {} then def
    else
      match Walk(active, name)
      case Some(b) => b
      case None => def
  }

  /** The walk answers at the first ancestor the set mentions. */
  lemma {:induction false} WalkStopsAtFirstMention(active: set<string>, name: string, i: nat)
    requires i < |Ancestors(name)| && Mentions(active, Ancestors(name)[i])
    requires forall j :: 0 <= j < i ==> !Mentions(active, Ancestors(name)[j])
    ensures Walk(active, name) == Some(Ancestors(name)[i] in active)
    decreases Rank(name)
  {
    if i > 0 {
      var p := ParentOfOption(name).value;
      var a := Ancestors(p);
      assert Ancestors(name) == [name] + a;
      assert !Mentions(active, Ancestors(name)[0]);
      forall j | 0 <= j < i - 1
        ensures !Mentions(active, a[j])
      {
        assert a[j] == Ancestors(name)[j + 1];
      }
      WalkStopsAtFirstMention(active, p, i - 1);
    }
  }

  /** The walk finds nothing when no ancestor is mentioned. */
  lemma {:induction false} WalkWithoutMention(active: set<string>, name: string)
    requires forall j :: 0 <= j < |Ancestors(name)| ==> !Mentions(active, Ancestors(name)[j])
    ensures Walk(active, name) == None
    decreases Rank(name)
  {
    assert !Mentions(active, Ancestors(name)[0]);
    if name != "all" {
      var p := ParentOfOption(name).value;
      var a := Ancestors(p);
      assert Ancestors(name) == [name] + a;
      forall j | 0 <= j < |a|
        ensures !Mentions(active, a[j])
      {
        assert a[j] == Ancestors(name)[j + 1];
      }
      WalkWithoutMention(active, p);
    }
  }

  /** -Alint alone activates "all", which enables every lint option. */
  lemma AllEnablesEverything(name: string, def: bool)
    ensures LintValue({"all"}, name, def)
  {
    var a := Ancestors(name);
    forall j | 0 <= j < |a| - 1
      ensures !Mentions({"all"}, a[j])
    {
      assert ("-" + a[j])[0] == '-';
    }
    WalkStopsAtFirstMention({"all"}, name, |a| - 1);
  }

  /**
   * -Alint=none activates "none" and "-all", which disables every lint
   * option whose chain of parents mentions neither of them.
   */
  lemma NoneDisablesEverything(name: string, def: bool)
    requires forall j :: 0 <= j < |Ancestors(name)| ==> Ancestors(name)[j] != "none" && Ancestors(name)[j] != "-all"
    ensures !LintValue({"none", "-all"}, name, def)
  {
    var a := Ancestors(name);
    forall j | 0 <= j < |a| - 1
      ensures !Mentions({"none", "-all"}, a[j])
    {
      assert ("-" + a[j])[0] == '-';
      assert "-" + a[j] != "-all" by {
        assert ("-" + a[j])[1..] == a[j];
        assert "-all"[1..] == "all";
      }
    }
    assert "-" + "all" == "-all";
    WalkStopsAtFirstMention({"none", "-all"}, name, |a| - 1);
  }

  /**
   * After setLintOption(name, val) the option reads val, except that
   * disabling an option the set enables outright leaves it enabled.
   */
  lemma SetThenGet(active: set<string>, name: string, val: bool, def: bool)
    ensures val ==> LintValue(active + {Setting(name, val)}, name, def)
    ensures !val && name !in active ==> !LintValue(active + {Setting(name, val)}, name, def)
    ensures !val && name in active ==> LintValue(active + {Setting(name, val)}, name, def)
  {
    var s := active + {Setting(name, val)};
    if !val && name !in active {
      assert name != "-" + name by {
        assert |"-" + name| == |name| + 1;
      }
      assert name !in s && "-" + name in s;
    }
  }

  // ---------------------------------------------------------------------
  // The active lints
  // ---------------------------------------------------------------------

  /** The items of -Alint=..., split at commas. */
  function LintItems(value: string): seq<string>
  {
    Split(value, ',')
  }

  /** The lints activated by the items: each item, and "-all" when "none" is one. */
  function Activated(items: seq<string>): set<string>
  {
    (set x | x in items) + (if "none" in items then {"-all"} else {})
  }

  /** One more item activates itself, and "-all" when it is "none". */
  lemma ActivatedSnoc(items: seq<string>, s: string)
    ensures Activated(items + [s]) == Activated(items) + {s} + (if s == "none" then {"-all"} else {})
  {
    assert forall x :: x in items + [s] <==> x in items || x == s;
  }

  /**
   * createActiveLints: no lint option gives no active lint; -Alint without
   * a value gives "all"; otherwise every item is active, and "none" also
   * activates "-all".  An empty item that is not itself a supported lint
   * makes the check for a leading "-" read past its end.
   */
  function ActiveLints(supported: set<string>, options: Options): (r: Result<set<string>>)
    ensures "lint" !in options ==> r == Ok({})
    ensures "lint" in options && options["lint"].None? ==> r == Ok({"all"})
    ensures r.Err? <==> "lint" in options && options["lint"].Some? && "" in LintItems(options["lint"].value) && "" !in supported
    ensures r.Ok? && "lint" in options && options["lint"].Some? ==>
      var items := LintItems(options["lint"].value);
      (forall x :: x in items ==> x in r.value) &&
      ("none" in items ==> "-all" in r.value) &&
      (forall x :: x in r.value ==> x in items || (x == "-all" && "none" in items))
  {
    if "lint" !in options then Ok({})
    else
      match options["lint"]
      case None => Ok({"all"})
      case Some(value) =>
        var items := LintItems(value);
        if "" in items && "" !in supported then Err(StringIndexOutOfBounds)
        else Ok(Activated(items))
  }

  /** The loop of createActiveLints over the comma-separated items. */
  method CreateActiveLints(supported: set<string>, options: Options) returns (r: Result<set<string>>)
    ensures r == ActiveLints(supported, options)
  {
    if "lint" !in options {
      return Ok({});
    }
    if options["lint"].None? {
      return Ok({"all"});
    }
    var items := LintItems(options["lint"].value);
    var activeLint: set<string> := {};
    assert items[..0] == [];
    for i := 0 to |items|
      invariant "" in items[..i] ==> "" in supported
      invariant activeLint == Activated(items[..i])
    {
      var s := items[i];
      if s == "" && s !in supported {
        return Err(StringIndexOutOfBounds);
      }
      activeLint := activeLint + {s};
      if s == "none" {
        activeLint := activeLint + {"-all"};
      }
      assert items[..i + 1] == items[..i] + [s];
      ActivatedSnoc(items[..i], s);
    }
    assert items[..|items|] == items;
    return Ok(activeLint);
  }

  /** Without a lint option every lint option reads its default. */
  lemma NoLintOptionKeepsDefaults(supported: set<string>, options: Options, name: string, def: bool)
    requires "lint" !in options
    ensures ActiveLints(supported, options).Ok?
    ensures LintValue(ActiveLints(supported, options).value, name, def) == def
  {
  }

  /** -Alint=none disables every lint option whose chain mentions neither "none" nor "-all". */
  lemma LintNoneDisables(supported: set<string>, options: Options, name: string, def: bool)
    requires "lint" in options && options["lint"] == Some("none")
    requires forall j :: 0 <= j < |Ancestors(name)| ==> Ancestors(name)[j] != "none" && Ancestors(name)[j] != "-all"
    ensures ActiveLints(supported, options) == Ok({"none", "-all"})
    ensures !LintValue(ActiveLints(supported, options).value, name, def)
  {
    assert ',' !in "none";
    assert LintItems("none") == ["none"];
    assert "" !in ["none"] && "none" in ["none"];
    assert (set x | x in ["none"]) == {"none"};
    var items := LintItems(options["lint"].value);
    assert items == ["none"];
    assert (set x | x in items) + {"-all"} == {"none", "-all"};
    NoneDisablesEverything(name, def);
  }

  /**
   * The lint settings of one checker: the supported lint names, the
   * processing environment's options, and the active lints, computed on
   * first use (null until then).
   */
  class LintSettings {
    const supportedLints: set<string>
    const options: Options
    var activeLints: Option<set<string>>

    constructor (supportedLints: set<string>, options: Options)
      ensures this.supportedLints == supportedLints && this.options == options
      ensures activeLints == None
    {
      this.supportedLints := supportedLints;
      this.options := options;
      activeLints := None;
    }

    /**
     * getLintOption(name, def): an unsupported name aborts; the active
     * lints are computed if not yet known; then the walk up the hierarchy
     * decides, with def when nothing is active or nothing is mentioned.
     */
    method GetLintOption(name: string, def: bool) returns (r: Result<bool>)
      modifies this
      ensures name !in supportedLints ==> r == Err(IllegalLintOption + name) && activeLints == old(activeLints)
      ensures name in supportedLints && old(activeLints).Some? ==> activeLints == old(activeLints)
      ensures name in supportedLints && old(activeLints).None? ==>
        var computed := ActiveLints(supportedLints, options);
        activeLints == (if computed.Ok? then Some(computed.value) else None) &&
        (computed.Err? ==> r == Err(computed.error))
      ensures r.Ok? <==> name in supportedLints && activeLints.Some?
      ensures r.Ok? ==> r.value == LintValue(activeLints.value, name, def)
    {
      if name !in supportedLints {
        return Err(IllegalLintOption + name);
      }
      if activeLints.None? {
        var computed := CreateActiveLints(supportedLints, options);
        if computed.Err? {
          return Err(computed.error);
        }
        activeLints := Some(computed.value);
      }
      var active := activeLints.value;
      if active == {} {
        return Ok(def);
      }
      var tofind := Some(name);
      while tofind.Some?
        invariant tofind.Some? ==> Walk(active, tofind.value) == Walk(active, name)
        invariant tofind.None? ==> Walk(active, name) == None
        decreases if tofind.Some? then Rank(tofind.value) + 1 else 0
      {
        if tofind.value in active {
          return Ok(true);
        } else if "-" + tofind.value in active {
          return Ok(false);
        }
        tofind := ParentOfOption(tofind.value);
      }
      return Ok(def);
    }

    /**
     * setLintOption as written: it copies the active lints without first
     * computing them, so before any getLintOption it dereferences null.
     */
    method SetLintOption(name: string, val: bool) returns (r: Outcome)
      modifies this
      ensures name !in supportedLints ==> r == Fail(IllegalLintOption + name) && activeLints == old(activeLints)
      ensures name in supportedLints && old(activeLints).None? ==> r == Fail(NullPointer) && activeLints == None
      ensures name in supportedLints && old(activeLints).Some? ==>
        r == Pass && activeLints == Some(old(activeLints).value + {Setting(name, val)})
    {
      if name !in supportedLints {
        return Fail(IllegalLintOption + name);
      }
      if activeLints.None? {
        return Fail(NullPointer);
      }
      activeLints := Some(activeLints.value + {Setting(name, val)});
      return Pass;
    }

    /**
     * setLintOption with the active lints computed first, as
     * getLintOption does: every existing entry is kept, and the option
     * then reads val unless it was enabled outright and val is false.
     */
    method SetLintOptionInitialised(name: string, val: bool) returns (r: Outcome)
      modifies this
      ensures name !in supportedLints ==> r == Fail(IllegalLintOption + name) && activeLints == old(activeLints)
      ensures name in supportedLints && ActiveLints(supportedLints, options).Ok? ==> r == Pass
      ensures r.Pass? ==> activeLints.Some?
      ensures r.Pass? && old(activeLints).Some? ==> activeLints == Some(old(activeLints).value + {Setting(name, val)})
      ensures r.Pass? && old(activeLints).None? ==>
        ActiveLints(supportedLints, options).Ok? &&
        activeLints == Some(ActiveLints(supportedLints, options).value + {Setting(name, val)})
      ensures r.Pass? ==> forall def: bool ::
        (val || name !in activeLints.value - {Setting(name, val)}) ==> LintValue(activeLints.value, name, def) == val
    {
      if name !in supportedLints {
        return Fail(IllegalLintOption + name);
      }
      if activeLints.None? {
        var computed := CreateActiveLints(supportedLints, options);
        if computed.Err? {
          return Fail(computed.error);
        }
        activeLints := Some(computed.value);
      }
      ghost var before := activeLints.value;
      activeLints := Some(activeLints.value + {Setting(name, val)});
      forall def: bool
        ensures (val || name !in activeLints.value - {Setting(name, val)}) ==> LintValue(activeLints.value, name, def) == val
      {
        SetThenGet(before, name, val, def);
        if !val && name !in activeLints.value - {Setting(name, val)} {
          assert name != Setting(name, val) by {
            assert |Setting(name, val)| == |name| + 1;
          }
          assert name !in before;
        }
      }
      return Pass;
    }
  }

  /** A fresh checker that sets a supported lint option before reading any fails with a null dereference. */
  method SetBeforeGetFails(supported: set<string>, options: Options, name: string) returns (r: Outcome)
    requires name in supported
    ensures r == Fail(NullPointer)
  {
    var settings := new LintSettings(supported, options);
    r := settings.SetLintOption(name, true);
  }

  /** The corrected setLintOption succeeds on a fresh checker whenever the lint option itself parses. */
  method SetBeforeGetSucceeds(supported: set<string>, options: Options, name: string) returns (r: Outcome, value: bool)
    requires name in supported && ActiveLints(supported, options).Ok?
    ensures r == Pass && value
  {
    var settings := new LintSettings(supported, options);
    r := settings.SetLintOptionInitialised(name, true);
    var got := settings.GetLintOption(name, false);
    value := got.value;
  }

  // ---------------------------------------------------------------------
  // Checker-prefixed options
  // ---------------------------------------------------------------------

  const OptionSeparator := '_'

  /** A checker class, or one of its superclasses below AbstractTypeProcessor. */
  datatype CheckerClass = CheckerClass(canonicalName: string, simpleName: string)

  predicate NamesClass(classes: seq<CheckerClass>, prefix: string)
  {
    exists c :: c in classes && (c.canonicalName == prefix || c.simpleName == prefix)
  }

  /**
   * Where createActiveOptions puts the value of one option: a key without
   * separator under itself; "C_opt" under "opt" when some class of the
   * checker is named C (canonical or simple name) and nowhere otherwise;
   * any other split aborts.  Splitting drops trailing empty parts, so
   * "C_opt_" counts as two parts and "_" as none.
   */
  function OptionTarget(key: string, classes: seq<CheckerClass>): (r: Result<Option<string>>)
    ensures OptionSeparator !in key ==> r == Ok(Some(key))
    ensures r.Ok? && r.value.Some? && r.value.value != key ==> OptionSeparator !in r.value.value
    ensures r.Err? ==> r.error == InvalidOptionName + key
  {
    var parts := Split(key, OptionSeparator);
    if |parts| == 1 then Ok(Some(key))
    else if |parts| == 2 then
      (if NamesClass(classes, parts[0]) then Ok(Some(parts[1])) else Ok(None))
    else Err(InvalidOptionName + key)
  }

  /**
   * createActiveOptions, visiting the keys in no particular order (the
   * order of a HashMap): it aborts exactly when some key is invalid, and
   * otherwise holds the target of every key, each with the value of a key
   * that targets it.
   */
  method CreateActiveOptions(options: Options, classes: seq<CheckerClass>) returns (r: Result<Options>)
    ensures r.Err? <==> exists key :: key in options && OptionTarget(key, classes).Err?
    ensures r.Ok? ==> forall key :: key in options && OptionTarget(key, classes).value.Some? ==>
      OptionTarget(key, classes).value.value in r.value
    ensures r.Ok? ==> forall t :: t in r.value ==>
      exists key :: key in options && OptionTarget(key, classes) == Ok(Some(t)) && r.value[t] == options[key]
  {
    var activeOpts: Options := map[];
    var todo := options.Keys;
    while todo != {}
      invariant todo <= options.Keys
      invariant forall key :: key in options && key !in todo ==> OptionTarget(key, classes).Ok?
      invariant forall key :: key in options && key !in todo && OptionTarget(key, classes).value.Some? ==>
        OptionTarget(key, classes).value.value in activeOpts
      invariant forall t :: t in activeOpts ==>
        exists key :: key in options && key !in todo && OptionTarget(key, classes) == Ok(Some(t)) && activeOpts[t] == options[key]
      decreases todo
    {
      var key :| key in todo;
      var target := OptionTarget(key, classes);
      if target.Err? {
        return Err(target.error);
      }
      if target.value.Some? {
        activeOpts := activeOpts[target.value.value := options[key]];
      }
      todo := todo - {key};
    }
    return Ok(activeOpts);
  }

  /** The options a checker supports under each class prefix. */
  function Prefixed(classes: seq<CheckerClass>, option: string): set<string>
    decreases |classes|
  {
    if classes == [] then {}
    else
      var c := classes[|classes| - 1];
      Prefixed(classes[..|classes| - 1], option) + {c.canonicalName + "_" + option, c.simpleName + "_" + option}
  }

  function Expanded(classes: seq<CheckerClass>, options: seq<string>): set<string>
    decreases |options|
  {
    if options == [] then {}
    else
      var o := options[|options| - 1];
      Expanded(classes, options[..|options| - 1]) + {o} + Prefixed(classes, o)
  }

  /** expandCFOptions: each option, and each option prefixed by each class name. */
  method ExpandCFOptions(classes: seq<CheckerClass>, options: seq<string>) returns (res: set<string>)
    ensures res == Expanded(classes, options)
  {
    res := {};
    for i := 0 to |options|
      invariant res == Expanded(classes, options[..i])
    {
      var option := options[i];
      assert options[..i + 1][..i] == options[..i];
      res := res + {option};
      for j := 0 to |classes|
        invariant res == Expanded(classes, options[..i]) + {option} + Prefixed(classes[..j], option)
      {
        assert classes[..j + 1][..j] == classes[..j];
        res := res + {classes[j].canonicalName + "_" + option};
        res := res + {classes[j].simpleName + "_" + option};
      }
      assert classes[..|classes|] == classes;
    }
    assert options[..|options|] == options;
  }

  lemma {:induction false} PrefixedMembers(classes: seq<CheckerClass>, option: string, x: string)
    ensures x in Prefixed(classes, option) <==>
      exists c :: c in classes && (x == c.canonicalName + "_" + option || x == c.simpleName + "_" + option)
    decreases |classes|
  {
    if classes != [] {
      var init := classes[..|classes| - 1];
      PrefixedMembers(init, option, x);
      assert classes == init + [classes[|classes| - 1]];
    }
  }

  /** The expanded options are exactly the options and their class-prefixed forms. */
  lemma {:induction false} ExpandedMembers(classes: seq<CheckerClass>, options: seq<string>, x: string)
    ensures x in Expanded(classes, options) <==>
      x in options ||
      exists o, c :: o in options && c in classes && (x == c.canonicalName + "_" + o || x == c.simpleName + "_" + o)
    decreases |options|
  {
    if options != [] {
      var init := options[..|options| - 1];
      var o := options[|options| - 1];
      ExpandedMembers(classes, init, x);
      PrefixedMembers(classes, o, x);
      assert options == init + [o];
      if x in Expanded(classes, options) && x !in options {
        if x in Expanded(classes, init) {
          var o', c :| o' in init && c in classes && (x == c.canonicalName + "_" + o' || x == c.simpleName + "_" + o');
          assert o' in options;
        } else {
          assert x in Prefixed(classes, o);
          var c :| c in classes && (x == c.canonicalName + "_" + o || x == c.simpleName + "_" + o);
          assert o in options;
        }
      }
      if x !in options && exists o', c :: o' in options && c in classes && (x == c.canonicalName + "_" + o' || x == c.simpleName + "_" + o') {
        var o', c :| o' in options && c in classes && (x == c.canonicalName + "_" + o' || x == c.simpleName + "_" + o');
        if o' == o {
          assert x in Prefixed(classes, o);
        } else {
          assert o' in init;
          assert x in Expanded(classes, init);
        }
      }
    }
  }

  /**
   * An option name expanded with a class prefix is recognised again by
   * createActiveOptions, under its own name, for the same classes.
   */
  lemma ExpandedOptionsAreRecognised(classes: seq<CheckerClass>, options: seq<string>, c: CheckerClass, o: string)
    requires c in classes && o in options
    requires o != "" && OptionSeparator !in o
    requires OptionSeparator !in c.canonicalName && OptionSeparator !in c.simpleName
    ensures o in Expanded(classes, options) && OptionTarget(o, classes) == Ok(Some(o))
    ensures c.simpleName + "_" + o in Expanded(classes, options)
    ensures c.canonicalName + "_" + o in Expanded(classes, options)
    ensures OptionTarget(c.simpleName + "_" + o, classes) == Ok(Some(o))
    ensures OptionTarget(c.canonicalName + "_" + o, classes) == Ok(Some(o))
  {
    ExpandedMembers(classes, options, o);
    ExpandedMembers(classes, options, c.simpleName + "_" + o);
    ExpandedMembers(classes, options, c.canonicalName + "_" + o);
    SplitTwo(c.simpleName, o, OptionSeparator);
    SplitTwo(c.canonicalName, o, OptionSeparator);
    assert NamesClass(classes, c.simpleName) && NamesClass(classes, c.canonicalName);
  }

  /** A trailing separator is ignored: "C_opt_" targets what "C_opt" targets. */
  lemma TrailingSeparatorIgnored(classes: seq<CheckerClass>, prefix: string, o: string)
    requires o != "" && OptionSeparator !in o && OptionSeparator !in prefix
    ensures OptionTarget(prefix + "_" + o + "_", classes) ==
      if NamesClass(classes, prefix) then Ok(Some(o)) else Ok(None)
  {
    SplitTrailing(prefix, o, OptionSeparator);
  }

  /**
   * A key of separators only splits into no part at all, and a doubled
   * separator leaves an empty middle part: both abort.
   */
  lemma EmptyPartsAbort(classes: seq<CheckerClass>, a: string, d: string)
    requires OptionSeparator !in a && OptionSeparator !in d && d != ""
    ensures OptionTarget("_", classes).Err?
    ensures OptionTarget(a + "__" + d, classes).Err?
  {
    PiecesCons("", "", OptionSeparator);
    assert "" + [OptionSeparator] + "" == "_";
    assert Pieces("_", OptionSeparator) == ["", ""];
    assert DropTrailingEmpty(["", ""][..1]) == [];
    SplitThree(a, "", d, OptionSeparator);
    assert a + [OptionSeparator] + "" + [OptionSeparator] + d == a + "__" + d;
  }

  /** Two separators between three non-empty parts abort. */
  lemma TwoSeparatorsAbort(classes: seq<CheckerClass>, a: string, b: string, d: string)
    requires OptionSeparator !in a && OptionSeparator !in b && OptionSeparator !in d && d != ""
    ensures OptionTarget(a + "_" + b + "_" + d, classes).Err?
  {
    SplitThree(a, b, d, OptionSeparator);
  }

  // ---------------------------------------------------------------------
  // @SuppressWarnings
  // ---------------------------------------------------------------------

  /**
   * One suppression value matches one checker key when it equals the key
   * ignoring case, or is contained, ignoring case, in key + ":" + err.
   */
  predicate Suppresses(value: string, checkerKey: string, err: string)
    ensures Suppresses(value, checkerKey, err) ==> |value| <= |checkerKey| + 1 + |err|
  {
    EqualsIgnoreCase(value, checkerKey) || Contains(ToLower(checkerKey + ":" + err), ToLower(value))
  }

  /** The string-array checkSuppressWarnings: null suppresses nothing, otherwise some value must match some key. */
  predicate SuppressedBy(values: Option<seq<string>>, checkerKeys: seq<string>, err: string)
  {
    values.Some? &&
    exists i, j :: 0 <= i < |values.value| && 0 <= j < |checkerKeys| && Suppresses(values.value[i], checkerKeys[j], err)
  }

  /** The nested loops of checkSuppressWarnings, returning at the first match. */
  method CheckSuppressWarningsValues(values: Option<seq<string>>, checkerKeys: seq<string>, err: string) returns (b: bool)
    ensures b == SuppressedBy(values, checkerKeys, err)
  {
    if values.None? {
      return false;
    }
    var userSwKeys := values.value;
    for i := 0 to |userSwKeys|
      invariant forall i', j :: 0 <= i' < i && 0 <= j < |checkerKeys| ==> !Suppresses(userSwKeys[i'], checkerKeys[j], err)
    {
      for j := 0 to |checkerKeys|
        invariant forall j' :: 0 <= j' < j ==> !Suppresses(userSwKeys[i], checkerKeys[j'], err)
      {
        if EqualsIgnoreCase(userSwKeys[i], checkerKeys[j]) {
          return true;
        }
        if Contains(ToLower(checkerKeys[j] + ":" + err), ToLower(userSwKeys[i])) {
          return true;
        }
      }
    }
    return false;
  }

  /** createSuppressWarnings: -AsuppressWarnings=a,b,c split at commas; absent or without value is null. */
  function CommandLineSuppressions(options: Options): (r: Option<seq<string>>)
    ensures r.Some? <==> "suppressWarnings" in options && options["suppressWarnings"].Some?
  {
    if "suppressWarnings" !in options then None
    else
      match options["suppressWarnings"]
      case None => None
      case Some(v) => Some(Split(v, ','))
  }

  /**
   * checkSuppressWarnings(anno, err): a checker without keys suppresses
   * nothing; otherwise the annotation's values or the command line's.
   */
  predicate WarningSuppressed(annotation: Option<seq<string>>, options: Options, checkerKeys: seq<string>, err: string)
  {
    checkerKeys != [] &&
    (SuppressedBy(annotation, checkerKeys, err) || SuppressedBy(CommandLineSuppressions(options), checkerKeys, err))
  }

  /** An empty value suppresses every error of a checker that has a key. */
  lemma EmptyValueSuppressesEverything(values: seq<string>, checkerKeys: seq<string>, err: string)
    requires "" in values && checkerKeys != []
    ensures SuppressedBy(Some(values), checkerKeys, err)
  {
    var i :| 0 <= i < |values| && values[i] == "";
    PrefixContained(ToLower(checkerKeys[0] + ":" + err), ToLower(""));
    assert Suppresses(values[i], checkerKeys[0], err);
  }

  /**
   * "key:prefix" suppresses every error whose key starts with prefix, and
   * the checker key itself suppresses everything, in any letter case.
   */
  lemma KeyAndErrorPrefixSuppress(checkerKey: string, err: string, prefix: string, value: string)
    requires |prefix| <= |err| && err[..|prefix|] == prefix
    ensures Suppresses(checkerKey, checkerKey, err)
    ensures ToLower(value) == ToLower(checkerKey + ":" + prefix) ==> Suppresses(value, checkerKey, err)
  {
    var whole := checkerKey + ":" + err;
    var part := checkerKey + ":" + prefix;
    assert whole == part + err[|prefix|..];
    ToLowerAppend(part, err[|prefix|..]);
    assert ToLower(whole)[..|part|] == ToLower(part);
    PrefixContained(ToLower(whole), ToLower(part));
  }

  /** -AsuppressWarnings=key suppresses every error of a checker with that key, whatever the annotation. */
  lemma CommandLineKeySuppresses(annotation: Option<seq<string>>, options: Options, checkerKeys: seq<string>, err: string)
    requires checkerKeys != [] && ',' !in checkerKeys[0]
    requires "suppressWarnings" in options && options["suppressWarnings"] == Some(checkerKeys[0])
    ensures WarningSuppressed(annotation, options, checkerKeys, err)
  {
    KeyAndErrorPrefixSuppress(checkerKeys[0], err, "", checkerKeys[0]);
    assert CommandLineSuppressions(options).value[0] == checkerKeys[0];
  }

  // ---------------------------------------------------------------------
  // Suppression keys, messages and stack traces
  // ---------------------------------------------------------------------

  /**
   * getSuppressWarningsKeys: the values of @SuppressWarningsKeys when
   * present; otherwise the simple class name cut before its last
   * "Checker" (or else its last "Subchecker"), trimmed and lower-cased.
   */
  function SuppressWarningsKeys(annotation: Option<seq<string>>, simpleName: string): (r: seq<string>)
    ensures annotation.Some? ==> r == annotation.value
    ensures annotation.None? ==> |r| == 1 && |r[0]| <= |simpleName|
  {
    match annotation
    case Some(keys) => keys
    case None =>
      var i := LastIndexOf(simpleName, "Checker");
      var j := if i == -1 then LastIndexOf(simpleName, "Subchecker") else i;
      var key := if j == -1 then simpleName else simpleName[..j];
      [ToLower(Trim(key))]
  }

  /** "NullnessChecker" has the key "nullness". */
  lemma CheckerSuffixKey(base: string)
    ensures SuppressWarningsKeys(None, base + "Checker") == [ToLower(Trim(base))]
  {
    LastIndexOfSuffix(base, "Checker");
    assert (base + "Checker")[..|base|] == base;
  }

  /** A class name with "Subchecker" but no "Checker" is cut before "Subchecker". */
  lemma SubcheckerSuffixKey(base: string)
    requires !Contains(base + "Subchecker", "Checker")
    ensures SuppressWarningsKeys(None, base + "Subchecker") == [ToLower(Trim(base))]
  {
    LastIndexOfMissing(base + "Subchecker", "Checker");
    LastIndexOfSuffix(base, "Subchecker");
    assert (base + "Subchecker")[..|base|] == base;
  }

  /** A class name with neither suffix is the key as a whole. */
  lemma PlainNameKey(name: string)
    requires !Contains(name, "Checker") && !Contains(name, "Subchecker")
    ensures SuppressWarningsKeys(None, name) == [ToLower(Trim(name))]
  {
    LastIndexOfMissing(name, "Checker");
    LastIndexOfMissing(name, "Subchecker");
  }

  /** Whether fullMessageOf tries key[k..]: the whole key, or what follows one of its dots. */
  predicate Tried(key: string, k: nat)
  {
    k == 0 || (k <= |key| && key[k - 1] == '.')
  }

  /**
   * fullMessageOf: the message of the key, else of what follows its first
   * dot, and so on; the default once no dot remains.
   */
  function FullMessage(messages: map<string, string>, key: string, def: string): (m: string)
    ensures m == def || m in messages.Values
    ensures key in messages ==> m == messages[key]
    decreases |key|
  {
    if key in messages then messages[key]
    else
      var dot := IndexOf(key, '.');
      if dot == |key| then def else FullMessage(messages, key[dot + 1..], def)
  }

  /** The loop of fullMessageOf. */
  method FullMessageOf(messages: map<string, string>, messageKey: string, defValue: string) returns (m: string)
    ensures m == FullMessage(messages, messageKey, defValue)
  {
    var key := messageKey;
    while true
      invariant FullMessage(messages, key, defValue) == FullMessage(messages, messageKey, defValue)
      decreases |key|
    {
      if key in messages {
        return messages[key];
      }
      var dot := IndexOf(key, '.');
      if dot == |key| {
        return defValue;
      }
      key := key[dot + 1..];
    }
  }

  /** The positions tried after the first dot are those of the rest, shifted. */
  lemma TriedShift(key: string, dot: nat, m: nat)
    requires dot == IndexOf(key, '.') && dot < |key|
    ensures Tried(key, m) && m > 0 ==> dot + 1 <= m
    ensures m + dot + 1 <= |key| ==> (Tried(key[dot + 1..], m) <==> Tried(key, m + dot + 1))
  {
  }

  /** The message is the one of the first tried suffix that has one. */
  lemma {:induction false} FullMessageFindsFirst(messages: map<string, string>, key: string, def: string, k: nat)
    requires k <= |key| && Tried(key, k) && key[k..] in messages
    requires forall m: nat :: m < k && Tried(key, m) ==> key[m..] !in messages
    ensures FullMessage(messages, key, def) == messages[key[k..]]
    decreases |key|
  {
    if k > 0 {
      assert key !in messages by { assert Tried(key, 0); assert key[0..] == key; }
      var dot := IndexOf(key, '.');
      TriedShift(key, dot, k);
      var rest := key[dot + 1..];
      forall m: nat | m < k - dot - 1 && Tried(rest, m)
        ensures rest[m..] !in messages
      {
        TriedShift(key, dot, m);
        assert rest[m..] == key[m + dot + 1..];
      }
      TriedShift(key, dot, k - dot - 1);
      assert rest[k - dot - 1..] == key[k..];
      FullMessageFindsFirst(messages, rest, def, k - dot - 1);
    }
  }

  /** Without a message for any tried suffix, the default is returned. */
  lemma {:induction false} FullMessageDefault(messages: map<string, string>, key: string, def: string)
    requires forall m: nat :: m <= |key| && Tried(key, m) ==> key[m..] !in messages
    ensures FullMessage(messages, key, def) == def
    decreases |key|
  {
    assert key !in messages by { assert Tried(key, 0); assert key[0..] == key; }
    var dot := IndexOf(key, '.');
    if dot < |key| {
      var rest := key[dot + 1..];
      forall m: nat | m <= |rest| && Tried(rest, m)
        ensures rest[m..] !in messages
      {
        TriedShift(key, dot, m);
        assert rest[m..] == key[m + dot + 1..];
      }
      FullMessageDefault(messages, rest, def);
    }
  }

  /** formatStackTrace: a header (or a notice that there is no trace), then the frames separated by newlines. */
  function StackTraceText(frames: seq<string>): string
  {
    (if frames == [] then "no stack trace available." else "Stack trace: ") + Join(frames, "\n")
  }

  /** The loop of formatStackTrace. */
  method FormatStackTrace(frames: seq<string>) returns (s: string)
    ensures s == StackTraceText(frames)
  {
    var header := if |frames| == 0 then "no stack trace available." else "Stack trace: ";
    var body := "";
    var first := true;
    for i := 0 to |frames|
      invariant first <==> i == 0
      invariant body == Join(frames[..i], "\n")
    {
      if !first {
        body := body + "\n";
      }
      first := false;
      assert frames[..i + 1] == frames[..i] + [frames[i]];
      if i > 0 {
        JoinSnoc(frames[..i], frames[i], "\n");
      }
      body := body + frames[i];
    }
    assert frames[..|frames|] == frames;
    return header + body;
  }

  /** The frames, when none holds a newline, are the lines after the header. */
  lemma StackTraceLines(frames: seq<string>)
    requires frames != []
    requires forall i :: 0 <= i < |frames| ==> '\n' !in frames[i]
    ensures Pieces(StackTraceText(frames), '\n') == ["Stack trace: " + frames[0]] + frames[1..]
  {
    JoinPieces("Stack trace: ", frames, '\n', "");
    assert ['\n'] + "" == "\n";
    var t := PaddedTail(frames, "");
    assert t == frames[1..] by {
      forall i | 0 <= i < |t| ensures t[i] == frames[1..][i] {
        assert "" + frames[i + 1] == frames[i + 1];
      }
    }
  }
}
