/** Garbage collection against an exact reference snapshot (evidence/retention.py:28-141). */
module Retention {
  import opened Wrappers
  import opened BlobStore

  const MAX_KEYS := 100000

  /** The roots bind their material; a root is an arbitrary hash of it. */
  datatype Roots = Roots(reference: seq<string> -> string, plan: (string, seq<string>) -> string)

  datatype ReferenceSet = ReferenceSet(referenced: seq<string>, root: string)

  datatype Plan = Plan(referenceSetRoot: string, candidates: seq<string>, planRoot: string)

  /** verify_reference_set and verify_plan, apart from the sorting. */
  predicate ValidReferences(roots: Roots, refs: ReferenceSet) {
    && (forall i | 0 <= i < |refs.referenced| :: BlobKey(refs.referenced[i]))
       && refs.root == roots.reference(refs.referenced)
  }

  predicate ValidPlan(roots: Roots, plan: Plan) {
    && (forall i | 0 <= i < |plan.candidates| :: BlobKey(plan.candidates[i]))
    && plan.planRoot == roots.plan(plan.referenceSetRoot, plan.candidates)
  }

  /** The stored keys that are not referenced. */
  ghost function Unreferenced(objects: Objects, refs: ReferenceSet): set<string> {
    set k | k in objects && k !in refs.referenced
  }

  predicate Distinct(keys: seq<string>) {
    forall i, j | 0 <= i < j < |keys| :: keys[i] != keys[j]
  }

  lemma {:induction false} SizeOf(keys: seq<string>, members: set<string>)
    requires Distinct(keys) && forall k :: k in keys <==> k in members
    ensures |keys| == |members|
  {
    if keys == [] {
      assert members == {};
    } else {
      var k, rest := keys[0], keys[1..];
      assert forall x :: x in keys <==> x == k || x in rest;
      SizeOf(rest, members - {k});
    }
  }

  /** The keys of a listing that no reference names. */
  method Candidates(stored: seq<string>, refs: ReferenceSet) returns (candidates: seq<string>)
    requires Distinct(stored)
    ensures Distinct(candidates) && forall k :: k in candidates <==> k in stored && k !in refs.referenced
  {
    candidates := [];
    for i := 0 to |stored|
      invariant Distinct(candidates)
      invariant forall k :: k in candidates <==> k in stored[..i] && k !in refs.referenced
    {
      if stored[i] !in refs.referenced {
        assert stored[i] !in stored[..i];
        candidates := candidates + [stored[i]];
      }
    }
    assert stored[..|stored|] == stored;
  }

  /** GarbageCollectionPlan.create: the stored keys that no reference names. Over a reliable backend it succeeds
      exactly when all stored keys are well formed and the candidates are within the ceiling. */
  method CreatePlan(roots: Roots, backend: Backend, refs: ReferenceSet) returns (r: Result<Plan, Error>)
    requires ValidReferences(roots, refs)
    ensures r.Success? ==>
              && ValidPlan(roots, r.value) && r.value.referenceSetRoot == refs.root
              && forall k :: k in r.value.candidates <==> k in backend.objects && k !in refs.referenced
    ensures backend.reliable ==>
              (r.Success? <==>
                && (forall k | k in backend.objects :: BlobKey(k))
                && |Unreferenced(backend.objects, refs)| <= MAX_KEYS)
  {
    var stored := backend.ListKeys();
    if stored.None? {
      return Failure(Integrity);
    }
    if exists i | 0 <= i < |stored.value| :: !BlobKey(stored.value[i]) {
      assert exists k | k in stored.value :: !BlobKey(k);
      return Failure(Integrity);
    }
    var candidates := Candidates(stored.value, refs);
    SizeOf(candidates, Unreferenced(backend.objects, refs));
    if |candidates| > MAX_KEYS {
      return Failure(Refused);
    }
    forall i | 0 <= i < |candidates| ensures BlobKey(candidates[i]) {
      assert candidates[i] in stored.value;
    }
    r := Success(Plan(refs.root, candidates, roots.plan(refs.root, candidates)));
  }

  /** Only candidates that are not referenced can be gone; nothing else changed. */
  ghost predicate Collected(before: Objects, after: Objects, candidates: seq<string>, referenced: seq<string>) {
    && (forall k | k in after :: k in before && after[k] == before[k])
    && (forall k | k in before && k !in after :: k in candidates && k !in referenced)
  }

  /** execute_garbage_collection: without the exact confirmation, the current reference set, or disjointness, the
      backend is not touched; with them, a backend that obeys collects every candidate of a valid plan. */
  method ExecuteGarbageCollection(backend: Backend, plan: Plan, refs: ReferenceSet, confirmPlanRoot: string)
    returns (r: Result<seq<string>, Error>)
    modifies backend
    ensures Collected(old(backend.objects), backend.objects, plan.candidates, refs.referenced)
    ensures confirmPlanRoot != plan.planRoot || plan.referenceSetRoot != refs.root
            || (exists k :: k in plan.candidates && k in refs.referenced)
            ==> r.Failure? && backend.objects == old(backend.objects)
    ensures r.Success? && backend.obedient ==>
              && (forall k :: k in backend.objects <==> k in old(backend.objects) && k !in plan.candidates)
              && (forall k :: k in r.value <==> k in plan.candidates && k in old(backend.objects))
    ensures backend.obedient && confirmPlanRoot == plan.planRoot && plan.referenceSetRoot == refs.root
            && (forall k | k in plan.candidates :: BlobKey(k) && k !in refs.referenced)
            ==> r.Success?
  {
    if confirmPlanRoot != plan.planRoot || plan.referenceSetRoot != refs.root {
      return Failure(Refused);
    }
    if exists i | 0 <= i < |plan.candidates| :: plan.candidates[i] in refs.referenced {
      return Failure(Integrity);
    }
    var deleted: seq<string> := [];
    for i := 0 to |plan.candidates|
      invariant Collected(old(backend.objects), backend.objects, plan.candidates, refs.referenced)
      invariant backend.obedient ==>
                  && (forall k :: k in backend.objects <==> k in old(backend.objects) && k !in plan.candidates[..i])
                  && (forall k :: k in deleted <==> k in plan.candidates[..i] && k in old(backend.objects))
    {
      var key := plan.candidates[i];
      var gone := backend.Delete(key);
      if gone.None? {
        return Failure(Unavailable);
      }
      if gone.value {
        deleted := deleted + [key];
      }
    }
    assert plan.candidates[..|plan.candidates|] == plan.candidates;
    r := Success(deleted);
  }

  /** A plan made at one time and executed later, after other writers added objects: every referenced key and
      every key added since survives, unchanged, whatever reference set is presented at execution. */
  lemma CollectionKeeps(planned: Objects, refs: ReferenceSet, plan: Plan, before: Objects, after: Objects,
                        current: ReferenceSet, k: string)
    requires forall x :: x in plan.candidates <==> x in planned && x !in refs.referenced
    requires Collected(before, after, plan.candidates, current.referenced)
    requires k in before && (k in refs.referenced || k in current.referenced || k !in planned)
    ensures k in after && after[k] == before[k]
  {
  }
}
