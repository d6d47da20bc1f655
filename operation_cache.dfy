/**
  OperationCache of the data-service providers: a dictionary of operation
  wrappers keyed by the operation name, extended with the full name of the
  binding parameter's type when there is one.
*/
module Providers {
  import opened Common

  /** The part of a ResourceType the cache reads: its namespace-qualified FullName. */
  datatype ResourceType = ResourceType(fullName: string)

  datatype OperationParameter = OperationParameter(name: string, parameterType: ResourceType)

  /** A service operation or action; `bindingParameter` None stands for null. */
  datatype Operation = Operation(name: string, bindingParameter: Option<OperationParameter>)

  /** The wrapper the cache stores for an operation: its name and its binding parameter. */
  datatype OperationWrapper = OperationWrapper(name: string, bindingParameter: Option<OperationParameter>)

  const Separator: string := "_"

  /** `bindingParameter == null ? null : bindingParameter.ParameterType`. */
  function BindingType(bindingParameter: Option<OperationParameter>): (t: Option<ResourceType>)
    ensures t.Some? <==> bindingParameter.Some?
    ensures t.Some? ==> t.value == bindingParameter.value.parameterType
  {
    match bindingParameter
    case None => None
    case Some(p) => Some(p.parameterType)
  }

  /**
    GetCacheKey(operationName, bindingType): the key starts with the name; it is
    the name alone exactly when there is no binding type, and otherwise the
    name, an underscore and the type's full name.
  */
  function GetCacheKey(operationName: string, bindingType: Option<ResourceType>): (key: string)
    ensures operationName <= key
    ensures key == operationName <==> bindingType.None?
    ensures bindingType.Some? ==>
      key[|operationName|] == '_' && key[|operationName| + 1..] == bindingType.value.fullName
  {
    var cacheKey := operationName;
    if bindingType.Some? then
      var key := cacheKey + Separator + bindingType.value.fullName;
      assert key[|operationName| + 1..] == bindingType.value.fullName;
      key
    else cacheKey
  }

  /** GetCacheKey(Operation). */
  function GetCacheKeyForOperation(operation: Operation): (key: string)
    ensures operation.name <= key
    ensures key == operation.name <==> operation.bindingParameter.None?
  {
    GetCacheKey(operation.name, BindingType(operation.bindingParameter))
  }

  /** GetCacheKey(OperationWrapper). */
  function GetCacheKeyForWrapper(wrapper: OperationWrapper): (key: string)
    ensures wrapper.name <= key
    ensures key == wrapper.name <==> wrapper.bindingParameter.None?
  {
    GetCacheKey(wrapper.name, BindingType(wrapper.bindingParameter))
  }

  /** The three overloads agree on an operation and a wrapper with the same name and binding type. */
  lemma KeyOverloadsAgree(operation: Operation, wrapper: OperationWrapper)
    requires operation.name == wrapper.name
    requires BindingType(operation.bindingParameter) == BindingType(wrapper.bindingParameter)
    ensures GetCacheKeyForOperation(operation) == GetCacheKeyForWrapper(wrapper)
    ensures GetCacheKeyForWrapper(wrapper) == GetCacheKey(wrapper.name, BindingType(wrapper.bindingParameter))
  {
  }

  /**
    With the same binding type, the key determines the name, compared
    ordinally: "Get" and "get" are different keys.
  */
  lemma {:induction false} KeyDeterminesName(name1: string, name2: string, bindingType: Option<ResourceType>)
    requires GetCacheKey(name1, bindingType) == GetCacheKey(name2, bindingType)
    ensures name1 == name2
  {
    var key := GetCacheKey(name1, bindingType);
    if bindingType.Some? {
      var n := bindingType.value.fullName;
      assert key == name1 + Separator + n == name2 + Separator + n;
      assert |name1| == |name2|;
      assert name1 == key[..|name1|] == name2;
    }
  }

  /** With the same name, the key determines the binding type's full name. */
  lemma KeyDeterminesBindingType(name: string, t1: Option<ResourceType>, t2: Option<ResourceType>)
    requires GetCacheKey(name, t1) == GetCacheKey(name, t2)
    ensures t1 == t2
  {
  }

  /**
    The key is not injective across names: an unbound operation named "a_b"
    and an operation "a" bound to type "b" share a key.
  */
  lemma KeyCollision()
    ensures GetCacheKey("a_b", None) == GetCacheKey("a", Some(ResourceType("b")))
  {
  }

  /** Every key of the dictionary is the key of the wrapper stored under it. */
  ghost predicate KeysMatch(cache: map<string, OperationWrapper>) {
    forall key :: key in cache ==> key == GetCacheKeyForWrapper(cache[key])
  }

  class OperationCache {
    /** underlyingCache, a Dictionary with the ordinal string comparer: keys compare by plain equality. */
    var underlyingCache: map<string, OperationWrapper>

    ghost predicate Valid()
      reads this
    {
      KeysMatch(underlyingCache)
    }

    constructor()
      ensures Valid()
      ensures underlyingCache == map[]
    {
      underlyingCache := map[];
    }

    /** TryGetWrapper(operationName, bindingType, out wrapper): the entry under their key, if any. */
    method TryGetWrapper(operationName: string, bindingType: Option<ResourceType>) returns (wrapper: Option<OperationWrapper>)
      ensures wrapper.Some? <==> GetCacheKey(operationName, bindingType) in underlyingCache
      ensures wrapper.Some? ==> wrapper.value == underlyingCache[GetCacheKey(operationName, bindingType)]
      ensures Valid() && wrapper.Some? ==>
        GetCacheKeyForWrapper(wrapper.value) == GetCacheKey(operationName, bindingType)
    {
      var cacheKey := GetCacheKey(operationName, bindingType);
      if cacheKey in underlyingCache {
        wrapper := Some(underlyingCache[cacheKey]);
      } else {
        wrapper := None;
      }
    }

    /** TryGetWrapper(operation, out wrapper). */
    method TryGetWrapperForOperation(operation: Operation) returns (wrapper: Option<OperationWrapper>)
      ensures wrapper.Some? <==> GetCacheKeyForOperation(operation) in underlyingCache
      ensures wrapper.Some? ==> wrapper.value == underlyingCache[GetCacheKeyForOperation(operation)]
      ensures Valid() && wrapper.Some? ==>
        GetCacheKeyForWrapper(wrapper.value) == GetCacheKeyForOperation(operation)
    {
      var cacheKey := GetCacheKeyForOperation(operation);
      if cacheKey in underlyingCache {
        wrapper := Some(underlyingCache[cacheKey]);
      } else {
        wrapper := None;
      }
    }

    /**
      Add: stores the wrapper under its key. Dictionary.Add throws an
      ArgumentException when the key is already present; that case is
      `added == false`, with the dictionary untouched.
    */
    method Add(wrapper: OperationWrapper) returns (added: bool)
      requires Valid()
      modifies this
      ensures Valid()
      ensures added <==> GetCacheKeyForWrapper(wrapper) !in old(underlyingCache)
      ensures added ==> underlyingCache == old(underlyingCache)[GetCacheKeyForWrapper(wrapper) := wrapper]
      ensures !added ==> underlyingCache == old(underlyingCache)
    {
      var cacheKey := GetCacheKeyForWrapper(wrapper);
      if cacheKey in underlyingCache {
        return false;
      }
      underlyingCache := underlyingCache[cacheKey := wrapper];
      added := true;
    }

    /** Contains(operation). */
    method ContainsOperation(operation: Operation) returns (b: bool)
      ensures b <==> GetCacheKeyForOperation(operation) in underlyingCache
    {
      b := GetCacheKeyForOperation(operation) in underlyingCache;
    }

    /** Contains(operationWrapper). */
    method ContainsWrapper(operationWrapper: OperationWrapper) returns (b: bool)
      ensures b <==> GetCacheKeyForWrapper(operationWrapper) in underlyingCache
    {
      b := GetCacheKeyForWrapper(operationWrapper) in underlyingCache;
    }
  }

  /**
    A wrapper added to a cache that does not hold its key is then contained,
    found by its name and binding type, and found for an operation with that
    name and binding type; every other entry is as it was.
  */
  method AddThenLookUp(cache: OperationCache, wrapper: OperationWrapper, operation: Operation)
      returns (contained: bool, found: Option<OperationWrapper>, foundForOperation: Option<OperationWrapper>)
    requires cache.Valid()
    requires GetCacheKeyForWrapper(wrapper) !in cache.underlyingCache
    requires operation.name == wrapper.name
    requires BindingType(operation.bindingParameter) == BindingType(wrapper.bindingParameter)
    modifies cache
    ensures cache.Valid()
    ensures contained && found == Some(wrapper) && foundForOperation == Some(wrapper)
    ensures forall key :: key in old(cache.underlyingCache) ==>
      key in cache.underlyingCache && cache.underlyingCache[key] == old(cache.underlyingCache)[key]
  {
    var added := cache.Add(wrapper);
    contained := cache.ContainsWrapper(wrapper);
    found := cache.TryGetWrapper(wrapper.name, BindingType(wrapper.bindingParameter));
    KeyOverloadsAgree(operation, wrapper);
    foundForOperation := cache.TryGetWrapperForOperation(operation);
  }

  /** Adding a wrapper whose key is taken changes nothing, and the earlier wrapper stays the one found. */
  method AddDuplicate(cache: OperationCache, wrapper: OperationWrapper) returns (added: bool, found: Option<OperationWrapper>)
    requires cache.Valid()
    requires GetCacheKeyForWrapper(wrapper) in cache.underlyingCache
    modifies cache
    ensures !added && cache.underlyingCache == old(cache.underlyingCache)
    ensures found == Some(old(cache.underlyingCache)[GetCacheKeyForWrapper(wrapper)])
  {
    added := cache.Add(wrapper);
    found := cache.TryGetWrapper(wrapper.name, BindingType(wrapper.bindingParameter));
  }
}
