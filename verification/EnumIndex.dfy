/**
  The three indexes of enum variants in the type environment (crates/scar/src/env.rs): by constructor,
  by runtime tag and by enum. All three are views of one append-only log of accepted registrations.
 */
module EnumIndex {
  import opened Wrappers
  import opened TypeRegistry
  import opened Selections

  datatype Variant<P> = Variant(tag: nat, enumName: string, constructorName: string, payload: P)

  datatype Registration<P> = Registration(constructor_: nat, variant: Variant<P>)

  /** The variants of one enum, in the order of the log. */
  function VariantsOf<P>(log: seq<Registration<P>>, enumName: string): seq<Variant<P>> {
    if log == [] then [] else
    var last := log[|log| - 1].variant;
    VariantsOf(log[..|log| - 1], enumName) + if last.enumName == enumName then [last] else []
  }

  ghost predicate DistinctLog<P>(log: seq<Registration<P>>) {
    forall i, j | 0 <= i < j < |log| ::
      log[i].constructor_ != log[j].constructor_ && log[i].variant.tag != log[j].variant.tag
  }

  /** Each logged variant is found by its constructor, and nothing else is. */
  ghost predicate IndexesConstructors<P>(byConstructor: map<nat, Variant<P>>, log: seq<Registration<P>>) {
    && (forall i | 0 <= i < |log| :: Get(byConstructor, log[i].constructor_) == Some(log[i].variant))
    && (forall id | id in byConstructor :: exists i :: 0 <= i < |log| && log[i].constructor_ == id)
  }

  /** Each logged variant is found by its tag, and nothing else is. */
  ghost predicate IndexesTags<P>(byTag: map<nat, Variant<P>>, log: seq<Registration<P>>) {
    && (forall i | 0 <= i < |log| :: Get(byTag, log[i].variant.tag) == Some(log[i].variant))
    && (forall tag | tag in byTag :: exists i :: 0 <= i < |log| && log[i].variant.tag == tag)
  }

  /** Each enum has exactly its part of the log, in order. */
  ghost predicate IndexesEnums<P>(byEnum: map<string, seq<Variant<P>>>, log: seq<Registration<P>>) {
    forall name :: (if name in byEnum then byEnum[name] else []) == VariantsOf(log, name)
                   && (name in byEnum ==> byEnum[name] != [])
  }

  lemma VariantsOfSnoc<P>(log: seq<Registration<P>>, r: Registration<P>, name: string)
    ensures VariantsOf(log + [r], name) == 
            VariantsOf(log, name) + if r.variant.enumName == name then [r.variant] else []
  {
    assert (log + [r])[..|log|] == log;
  }

  /** `kept` lists the registrations of an enum. */
  ghost predicate ListsEnum<P>(log: seq<Registration<P>>, enumName: string, kept: seq<nat>) {
    && Positions(kept, |log|)
    && (forall i: nat | i < |log| :: i in kept <==> log[i].variant.enumName == enumName)
  }

  /** The variants of an enum are those of all its registrations, each once and in the order of the log. */
  lemma {:induction false} VariantsOfExactly<P>(log: seq<Registration<P>>, enumName: string) returns (kept: seq<nat>)
    ensures ListsEnum(log, enumName, kept)
    ensures var own := Pick(log, kept);
            && |VariantsOf(log, enumName)| == |own|
            && (forall k | 0 <= k < |own| :: VariantsOf(log, enumName)[k] == own[k].variant)
  {
    if log == [] {
      kept := [];
    } else {
      var n := |log| - 1;
      kept := VariantsOfExactly(log[..n], enumName);
      PickNext(log, kept, n);
      if log[n].variant.enumName == enumName { kept := kept + [n]; }
    }
  }

  /** Neither the constructor nor the tag has been registered. */
  ghost predicate Free<P>(log: seq<Registration<P>>, id: nat, tag: nat) {
    forall i | 0 <= i < |log| :: log[i].constructor_ != id && log[i].variant.tag != tag
  }

  lemma ExtendLog<P>(log: seq<Registration<P>>, r: Registration<P>)
    requires DistinctLog(log) && Free(log, r.constructor_, r.variant.tag)
    ensures DistinctLog(log + [r])
  {}

  lemma FreeIffUnindexed<P>(
    byConstructor: map<nat, Variant<P>>, byTag: map<nat, Variant<P>>, log: seq<Registration<P>>, id: nat, tag: nat)
    requires IndexesConstructors(byConstructor, log) && IndexesTags(byTag, log)
    ensures Free(log, id, tag) <==> id !in byConstructor && tag !in byTag
  {
    KnownConstructor(byConstructor, log, id);
    KnownTag(byTag, log, tag);
  }

  lemma KnownConstructor<P>(byConstructor: map<nat, Variant<P>>, log: seq<Registration<P>>, id: nat)
    requires IndexesConstructors(byConstructor, log)
    ensures id !in byConstructor <==> forall i | 0 <= i < |log| :: log[i].constructor_ != id
  {
    assert forall i | 0 <= i < |log| :: Get(byConstructor, log[i].constructor_).Some?;
  }

  lemma KnownTag<P>(byTag: map<nat, Variant<P>>, log: seq<Registration<P>>, tag: nat)
    requires IndexesTags(byTag, log)
    ensures tag !in byTag <==> forall i | 0 <= i < |log| :: log[i].variant.tag != tag
  {
    assert forall i | 0 <= i < |log| :: Get(byTag, log[i].variant.tag).Some?;
  }

  lemma ExtendConstructors<P>(byConstructor: map<nat, Variant<P>>, log: seq<Registration<P>>, r: Registration<P>)
    requires IndexesConstructors(byConstructor, log) && r.constructor_ !in byConstructor
    ensures IndexesConstructors(byConstructor[r.constructor_ := r.variant], log + [r])
  {
    var after := log + [r];
    assert after[|log|] == r;
    forall id | id in byConstructor ensures exists i :: 0 <= i < |after| && after[i].constructor_ == id {
      var i :| 0 <= i < |log| && log[i].constructor_ == id;
      assert after[i].constructor_ == id;
    }
  }

  lemma ExtendTags<P>(byTag: map<nat, Variant<P>>, log: seq<Registration<P>>, r: Registration<P>)
    requires IndexesTags(byTag, log) && r.variant.tag !in byTag
    ensures IndexesTags(byTag[r.variant.tag := r.variant], log + [r])
  {
    var after := log + [r];
    assert after[|log|] == r;
    forall tag | tag in byTag ensures exists i :: 0 <= i < |after| && after[i].variant.tag == tag {
      var i :| 0 <= i < |log| && log[i].variant.tag == tag;
      assert after[i].variant.tag == tag;
    }
  }

  lemma ExtendEnums<P>(byEnum: map<string, seq<Variant<P>>>, log: seq<Registration<P>>, r: Registration<P>)
    requires IndexesEnums(byEnum, log)
    ensures var name := r.variant.enumName;
            var before := if name in byEnum then byEnum[name] else [];
            IndexesEnums(byEnum[name := before + [r.variant]], log + [r])
  {
    var name := r.variant.enumName;
    var before := if name in byEnum then byEnum[name] else [];
    var after := byEnum[name := before + [r.variant]];
    forall n
      ensures (if n in after then after[n] else []) == VariantsOf(log + [r], n) && (n in after ==> after[n] != [])
    {
      VariantsOfSnoc(log, r, n);
      assert (if n in byEnum then byEnum[n] else []) == VariantsOf(log, n);
    }
  }

  class Index<P> {
    var byConstructor: map<nat, Variant<P>>
    var byTag: map<nat, Variant<P>>
    var byEnum: map<string, seq<Variant<P>>>
    /** The accepted registrations, in order. */
    ghost var log: seq<Registration<P>>

    ghost predicate Valid()
      reads this
    {
      && DistinctLog(log)
      && IndexesConstructors(byConstructor, log)
      && IndexesTags(byTag, log)
      && IndexesEnums(byEnum, log)
    }

    constructor ()
      ensures Valid() && log == []
    {
      byConstructor, byTag, byEnum, log := map[], map[], map[], [];
    }

    /** A constructor or tag already in use is refused and nothing changes; otherwise the log grows by one. */
    method Register(constructor_: nat, variant: Variant<P>) returns (ok: bool)
      requires Valid()
      modifies this
      ensures Valid()
      ensures ok <==> Free(old(log), constructor_, variant.tag)
      ensures ok ==> log == old(log) + [Registration(constructor_, variant)]
      ensures !ok ==> log == old(log) && byConstructor == old(byConstructor)
      ensures !ok ==> byTag == old(byTag) && byEnum == old(byEnum)
    {
      FreeIffUnindexed(byConstructor, byTag, log, constructor_, variant.tag);
      hide IndexesConstructors, IndexesTags, IndexesEnums, DistinctLog, Free;
      if constructor_ in byConstructor {
        return false;
      }
      if variant.tag in byTag {
        return false;
      }
      ghost var r := Registration(constructor_, variant);
      ExtendLog(log, r);
      ExtendConstructors(byConstructor, log, r);
      ExtendTags(byTag, log, r);
      ExtendEnums(byEnum, log, r);
      byConstructor := byConstructor[constructor_ := variant];
      byTag := byTag[variant.tag := variant];
      var variants := if variant.enumName in byEnum then byEnum[variant.enumName] else [];
      byEnum := byEnum[variant.enumName := variants + [variant]];
      log := log + [r];
      ok := true;
    }

    method VariantByConstructor(constructor_: nat) returns (variant: Option<Variant<P>>)
      requires Valid()
      ensures forall i | 0 <= i < |log| && log[i].constructor_ == constructor_ :: variant == Some(log[i].variant)
      ensures variant.None? <==> forall i | 0 <= i < |log| :: log[i].constructor_ != constructor_
    {
      variant := Get(byConstructor, constructor_);
    }

    method VariantByTag(tag: nat) returns (variant: Option<Variant<P>>)
      requires Valid()
      ensures forall i | 0 <= i < |log| && log[i].variant.tag == tag :: variant == Some(log[i].variant)
      ensures variant.None? <==> forall i | 0 <= i < |log| :: log[i].variant.tag != tag
    {
      variant := Get(byTag, tag);
    }

    /** The list of an enum, under its own name or with the implicit root added or taken away. */
    method VariantsOfEnum(name: string) returns (variants: Option<seq<Variant<P>>>)
      requires Valid()
      ensures var other := if "Global::" <= name then name[8..] else "Global::" + name;
              variants == if VariantsOf(log, name) != [] then Some(VariantsOf(log, name))
                          else if VariantsOf(log, other) != [] then Some(VariantsOf(log, other))
                          else None
    {
      var (first, second) := LookupCandidates(name);
      variants := LookupIn(byEnum, name);
      assert (if first in byEnum then byEnum[first] else []) == VariantsOf(log, first);
      assert (if second in byEnum then byEnum[second] else []) == VariantsOf(log, second);
    }
  }
}
