/** A spelling says what the type is: its kind, the name it refers to, and its parameters in order. */
module CppSpelling {
  import opened Ir
  import opened CppTypes

  /** What a use needs for the type to have a spelling. */
  predicate Spellable(index: TypeIndex, ty: TypeRef, fallback: int) {
    && !ty.kind.Unknown?
    && (ty.kind.Enumeration? ==> ty.name in index.enums && (fallback <= 0 || fallback in {1, 2, 4, 8}))
    && (ty.kind.Struct? ==> ty.name in index.structs)
    && (ty.kind.Array? || ty.kind.Set? || ty.kind.Optional? ==> |ty.params| == 1)
    && (ty.kind.Map? ==> |ty.params| == 2)
  }

  lemma SpelledIff(index: TypeIndex, ty: TypeRef, fallback: int)
    ensures RenderType(index, ty, fallback).Some? <==> Spellable(index, ty, fallback)
  {
    if ty.kind.Enumeration? && ty.name in index.enums {
      EnumHasWidth(index.enums[ty.name]);
    }
  }

  /** A member keeps its type if and only if it has a spelling that is not known to take other bytes. */
  lemma KeptIff(index: TypeIndex, p: Property)
    ensures Kept(index, p).Some? <==>
            && Spellable(index, p.ty, Element(p))
            && (ExpectedSize(index, p.ty) > 0 && Element(p) > 0 ==> ExpectedSize(index, p.ty) == Element(p))
    ensures Kept(index, p).Some? ==> Denotes(index, Kept(index, p).value, p.ty)
  {
    SpelledIff(index, p.ty, Element(p));
    if Kept(index, p).Some? {
      RenderedDenotes(index, p.ty, Element(p));
    }
  }

  /** A template whose parameters are spelled out. */
  predicate HasArguments(kind: TypeKind) { kind.Array? || kind.Set? || kind.Map? || kind.Optional? }

  /** The spelling says the type; what has no spelling of its own stands as unresolved. */
  ghost predicate Denotes(index: TypeIndex, s: CppType, ty: TypeRef)
    decreases s
  {
    match s
    case Builtin(kind) => ty.kind == kind && !HasArguments(kind)
    case SizedInteger(_) => ty.kind.Enumeration? && ty.name in index.enums
    case EnumName(path) => ty.kind.Enumeration? && ty.name == path && path in index.enums
    case StructName(path) => ty.kind.Struct? && ty.name == path && path in index.structs
    case Template(kind, args) =>
      && ty.kind == kind
      && (if HasArguments(kind) then |args| == |ty.params| else args == [])
      && forall i {:trigger args[i]} :: 0 <= i < |args| ==>
           Denotes(index, args[i], ty.params[i]) || (args[i].Unresolved? && !Spellable(index, ty.params[i],
                                                                                       ty.params[i].size))
    case Unresolved => false
  }

  lemma {:induction false} RenderedDenotes(index: TypeIndex, ty: TypeRef, fallback: int)
    requires RenderType(index, ty, fallback).Some?
    ensures Denotes(index, RenderType(index, ty, fallback).value, ty)
    decreases ty
  {
    if HasArguments(ty.kind) {
      var args := RenderType(index, ty, fallback).value.args;
      forall i {:trigger args[i]} | 0 <= i < |args|
        ensures Denotes(index, args[i], ty.params[i])
                || (args[i].Unresolved? && !Spellable(index, ty.params[i], ty.params[i].size))
      {
        assert args[i] == RenderInner(index, ty.params[i]);
        InnerDenotes(index, ty, i);
      }
    }
  }

  lemma {:induction false} InnerDenotes(index: TypeIndex, ty: TypeRef, i: nat)
    requires i < |ty.params|
    ensures var inner := RenderInner(index, ty.params[i]);
            || Denotes(index, inner, ty.params[i])
            || (inner.Unresolved? && !Spellable(index, ty.params[i], ty.params[i].size))
    decreases ty, 0
  {
    var p := ty.params[i];
    assert p in ty.params;
    SpelledIff(index, p, p.size);
    if RenderType(index, p, p.size).Some? {
      RenderedDenotes(index, p, p.size);
    }
  }
}
