/** Which harness field a lock dependency's field name stands for, and when a field
    value is the URL a dependency was recorded for. */
module LockFields {
  import opened Text
  import opened Wrappers

  /** The slot a dependency may write; most names are informational only. */
  datatype Slot =
    | Agent | Policy | PreScript | PostScript | LoopScript | LoopSchema
    | Plugin(index: int) | Skill(index: int) | TransitiveSkill | NoSlot

  predicate Digit(c: char) {
    '0' <= c <= '9'
  }

  predicate AllDigits(s: string) {
    forall i :: 0 <= i < |s| ==> Digit(s[i])
  }

  // ----- Transitive skills -----

  /** `isTransitiveSkillLockField`. */
  method IsTransitiveSkillLockField(field: string) returns (transitive: bool)
    ensures transitive == TransitiveField(field)
  {
    if !HasPrefix(field, "skills[") || !HasSuffix(field, "]") || |field| < 8 {
      return false;
    }
    var inner := field[7..|field| - 1];
    var i := LastIndex(inner, ":dep");
    if i <= 0 {
      return false;
    }
    var n := inner[i + 4..];
    if n == "" {
      return false;
    }
    for k := 0 to |n|
      invariant forall j :: 0 <= j < k ==> Digit(n[j])
    {
      if !Digit(n[k]) {
        return false;
      }
    }
    return true;
  }

  predicate TransitiveField(field: string) {
    && HasPrefix(field, "skills[") && HasSuffix(field, "]") && |field| >= 8
    && var inner := field[7..|field| - 1];
       var i := LastIndex(inner, ":dep");
       i > 0 && inner[i + 4..] != "" && AllDigits(inner[i + 4..])
  }

  /** The recorded form of a transitive dependency. */
  function TransitiveName(parent: string, number: string): string {
    "skills[" + parent + ":dep" + number + "]"
  }

  /** The test accepts exactly the recorded form: a non-empty parent and a number. */
  lemma TransitiveFieldIsExact(field: string)
    ensures TransitiveField(field) <==>
              exists parent, number ::
                parent != "" && number != "" && AllDigits(number) && field == TransitiveName(parent, number)
  {
    if TransitiveField(field) {
      var parent, number := TransitiveParts(field);
    }
    if parent, number :| parent != "" && number != "" && AllDigits(number) && field == TransitiveName(parent, number) {
      TransitiveNameIsOne(parent, number);
    }
  }

  lemma Bracketed(field: string, inner: string)
    requires HasPrefix(field, "skills[") && HasSuffix(field, "]") && |field| >= 8 && inner == field[7..|field| - 1]
    ensures field == "skills[" + inner + "]"
  {
  }

  lemma TransitiveParts(field: string) returns (parent: string, number: string)
    requires TransitiveField(field)
    ensures parent != "" && number != "" && AllDigits(number) && field == TransitiveName(parent, number)
  {
    var inner := field[7..|field| - 1];
    var i := LastIndex(inner, ":dep");
    parent, number := inner[..i], inner[i + 4..];
    assert inner[..i] + inner[i..i + 4] + inner[i + 4..] == inner;
    Bracketed(field, inner);
  }

  lemma TransitiveNameIsOne(parent: string, number: string)
    requires parent != "" && number != "" && AllDigits(number)
    ensures TransitiveField(TransitiveName(parent, number))
  {
    var field, inner := TransitiveName(parent, number), parent + ":dep" + number;
    assert field == "skills[" + inner + "]";
    assert field[7..|field| - 1] == inner;
    LastDep(parent, number);
    assert inner[|parent| + 4..] == number;
  }

  lemma LastDep(parent: string, number: string)
    requires AllDigits(number)
    ensures LastIndex(parent + ":dep" + number, ":dep") == |parent|
  {
    var s := parent + ":dep" + number;
    var i := LastIndex(s, ":dep");
    assert OccursAt(s, ":dep", |parent|);
    if i > |parent| {
      NoDepInDigits(parent, number, i);
    }
  }

  lemma NoDepInDigits(parent: string, number: string, i: nat)
    requires AllDigits(number) && i > |parent|
    ensures !OccursAt(parent + ":dep" + number, ":dep", i)
  {
    var s := parent + ":dep" + number;
    if i <= |s| - 4 {
      assert s[i + 3] == number[i - |parent| - 1];
      assert s[i..i + 4][3] == s[i + 3];
      assert ":dep"[3] == 'p';
    }
  }

  // ----- Field values -----

  /** A field value with its "#" fragment left out. */
  function WithoutFragment(value: string): string {
    var i := LastIndex(value, "#");
    if i >= 0 then value[..i] else value
  }

  /** `lockFieldHolds`. */
  predicate FieldHolds(value: string, lockURL: string) {
    lockURL != "" && WithoutFragment(value) == lockURL
  }

  /** A value holds a URL exactly when it is the URL, with no "#" of its own, or the
      URL followed by a last "#" and a fragment. */
  lemma FieldHoldsModuloFragment(value: string, lockURL: string)
    ensures FieldHolds(value, lockURL) <==>
              lockURL != ""
              && ((value == lockURL && '#' !in value)
                  || exists fragment :: '#' !in fragment && value == lockURL + "#" + fragment)
  {
    var i := LastIndex(value, "#");
    if FieldHolds(value, lockURL) {
      if i >= 0 {
        var fragment := value[i + 1..];
        forall k | 0 <= k < |fragment| ensures fragment[k] != '#' {
          HashAt(value, i + 1 + k);
        }
        assert value == value[..i] + value[i..i + 1] + fragment;
        assert value == lockURL + "#" + fragment;
      } else {
        NoHash(value);
      }
    }
    if lockURL != "" && value == lockURL && '#' !in value {
      if i >= 0 { HashAt(value, i); }
    }
    if lockURL != "" {
      if fragment :| '#' !in fragment && value == lockURL + "#" + fragment {
        HashAt(value, |lockURL|);
        if i > |lockURL| {
          HashAt(value, i);
        }
        assert value[..|lockURL|] == lockURL;
      }
    }
  }

  lemma HashAt(value: string, k: nat)
    requires k < |value|
    ensures OccursAt(value, "#", k) <==> value[k] == '#'
  {
    assert value[k..k + 1] == [value[k]];
  }

  lemma NoHash(value: string)
    requires LastIndex(value, "#") < 0
    ensures '#' !in value
  {
    forall k | 0 <= k < |value| ensures value[k] != '#' {
      HashAt(value, k);
    }
  }

  // ----- The switch on field names -----

  /** Names of a forge or overlay variant: what they stand for was put in place when
      the harness was composed. */
  predicate VariantField(field: string) {
    && (HasPrefix(field, "forge.") || HasPrefix(field, "overlays["))
    && (HasSuffix(field, ".pre_script") || HasSuffix(field, ".post_script")
        || HasSuffix(field, ".validation_loop.script")
        || HasSuffix(field, ".validation_loop.schema") || HasSuffix(field, ".policy"))
  }

  /** The same for lists of a variant. */
  predicate VariantListField(field: string) {
    && (HasPrefix(field, "forge.") || HasPrefix(field, "overlays["))
    && (Contains(field, ".skills[") || Contains(field, ".providers[") || Contains(field, ".openshell.profiles["))
  }

  /** Names of profiles and of providers, of variants too. */
  predicate ProfileField(field: string) {
    HasPrefix(field, "openshell.profiles[")
    || ((HasPrefix(field, "forge.") || HasPrefix(field, "overlays[")) && Contains(field, ".openshell.profiles["))
  }

  predicate ProviderField(field: string) {
    HasPrefix(field, "providers[")
    || ((HasPrefix(field, "forge.") || HasPrefix(field, "overlays[")) && Contains(field, ".providers["))
  }

  /** The switch of the apply loop, in its order; `scan(format, field)` is `Sscanf`
      with one integer. */
  function SlotOf(scan: (string, string) -> Option<int>, decimal: int -> string, field: string): Slot {
    if field == "agent" then Agent
    else if field == "policy" then Policy
    else if HasPrefix(field, "policy[") || field == "base" then NoSlot
    else if field == "pre_script" then PreScript
    else if field == "post_script" then PostScript
    else if field == "validation_loop.script" then LoopScript
    else if field == "validation_loop.schema" then LoopSchema
    else if VariantField(field) then NoSlot
    else if HasPrefix(field, "openshell.profiles[") || HasPrefix(field, "providers[") then NoSlot
    else if field == "agent_source" then NoSlot
    else if Contains(field, "host_files[") && HasSuffix(field, "].src") then NoSlot
    else if HasPrefix(field, "plugins[") then
      (match scan("plugins[%d]", field) case Some(i) => Plugin(i) case None => Plugin(0))
    else if VariantListField(field) || Contains(field, ".overrides[") then NoSlot
    else
      match scan("skills[%d]", field)
      case Some(i) =>
        if i >= 0 && field == "skills[" + decimal(i) + "]" then Skill(i)
        else if TransitiveField(field) then TransitiveSkill else NoSlot
      case None => if TransitiveField(field) then TransitiveSkill else NoSlot
  }

  /** Only a name of the recorded form ever appends a skill. */
  lemma OnlyTransitiveNamesAppend(scan: (string, string) -> Option<int>, decimal: int -> string, field: string)
    requires SlotOf(scan, decimal, field) == TransitiveSkill
    ensures exists parent, number ::
              parent != "" && number != "" && AllDigits(number) && field == TransitiveName(parent, number)
  {
    TransitiveFieldIsExact(field);
  }

  /** The names that stand for one field each. */
  lemma ScalarNames(scan: (string, string) -> Option<int>, decimal: int -> string, field: string)
    ensures var slot := SlotOf(scan, decimal, field);
            && (slot == Agent <==> field == "agent") && (slot == Policy <==> field == "policy")
            && (slot == PreScript <==> field == "pre_script") && (slot == PostScript <==> field == "post_script")
            && (slot == LoopScript <==> field == "validation_loop.script")
            && (slot == LoopSchema <==> field == "validation_loop.schema")
  {
    if HasPrefix(field, "policy[") {
      assert field[0] == 'p' && field[2] == 'l';
    }
  }
}
