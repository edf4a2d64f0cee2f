/** `HObjectPool`: every method below is one critical section under the pool's mutex, so any
    sequence of calls is an interleaving. `Borrow` is three of them: `TryBorrow`, `Reserve`, and
    `FinishCreate` after the window in which the object is made without the mutex. */
module ObjectPool {
  import opened Common

  datatype Reservation = Create | Wait | Refused

  predicate Distinct<T(==)>(s: seq<T>)
  {
    forall i, j :: 0 <= i < j < |s| ==> s[i] != s[j]
  }

  lemma KnownTwice<T>(s: seq<T>, p: T)
    requires Distinct(s)
    ensures Distinct(s + [p]) <==> p !in s
  {
    if p in s {
      var k :| 0 <= k < |s| && s[k] == p;
      assert (s + [p])[k] == (s + [p])[|s|];
    }
  }

  class HObjectPool<T(==)> {
    var objectNum: int
    const maxNum: int
    const timeout: int
    var objects: seq<T>
    ghost var borrowed: set<T>   // objects out with a borrower
    ghost var creating: nat      // borrowers in the unlocked create window
    ghost const initial: nat

    ghost predicate Conserved()
      reads this
    {
      objectNum == |objects| + |borrowed| + creating
    }

    ghost predicate Valid()
      reads this
    {
      && Conserved()
      && Distinct(objects)
      && (forall p :: p in objects ==> p !in borrowed)
      && objectNum <= Max(initial, maxNum)
    }

    /** `made`: the objects the factory produced at construction. The count starts at most at
        `maxNum` exactly when there are no more of them than that, and then stays there. */
    constructor (made: seq<T>, maxNum: int, timeout: int)
      requires Distinct(made)
      ensures Valid() && objects == made && borrowed == {} && creating == 0
      ensures this.maxNum == maxNum && this.timeout == timeout && initial == |made|
    {
      this.maxNum := maxNum;
      this.timeout := timeout;
      objects := made;
      objectNum := |made|;
      borrowed := {};
      creating := 0;
      initial := |made|;
    }

    method TryBorrow() returns (p: Option<T>)
      requires Valid()
      modifies this`objects, this`borrowed
      ensures Valid()
      ensures p.None? <==> old(objects) == []
      ensures p.None? ==> objects == [] && borrowed == old(borrowed)
      ensures p.Some? ==> old(objects) == [p.value] + objects
      ensures p.Some? ==> p.value !in old(borrowed) && borrowed == old(borrowed) + {p.value}
    {
      p := None;
      if objects != [] {
        p := Some(objects[0]);
        objects := objects[1..];
        borrowed := borrowed + {p.value};
      }
    }

    /** The second critical section of `Borrow`: count the object before making it, or wait. */
    method Reserve() returns (r: Reservation)
      requires Valid()
      modifies this`objectNum, this`creating
      ensures Valid()
      ensures r.Create? <==> old(objectNum) < maxNum
      ensures r.Refused? <==> old(objectNum) >= maxNum && timeout <= 0
      ensures creating == old(creating) + (if r.Create? then 1 else 0)
      ensures objectNum <= Max(old(objectNum), maxNum)
    {
      if objectNum < maxNum {
        objectNum := objectNum + 1;
        creating := creating + 1;
        r := Create;
      } else if timeout > 0 {
        r := Wait;
      } else {
        r := Refused;
      }
    }

    /** The end of the create window; the factory may have failed. */
    method FinishCreate(p: Option<T>)
      requires Valid() && creating > 0
      requires p.Some? ==> p.value !in objects && p.value !in borrowed
      modifies this`objectNum, this`creating, this`borrowed
      ensures Valid() && creating == old(creating) - 1
      ensures borrowed == old(borrowed) + (if p.Some? then {p.value} else {})
      ensures objectNum == old(objectNum) - (if p.None? then 1 else 0)
    {
      creating := creating - 1;
      if p.None? {
        objectNum := objectNum - 1;
      } else {
        borrowed := borrowed + {p.value};
      }
    }

    /** After `wait_for`: NULL on a timeout even if an object has come back meanwhile. */
    method Woken(timedOut: bool) returns (p: Option<T>)
      requires Valid()
      modifies this`objects, this`borrowed
      ensures Valid()
      ensures p.None? <==> timedOut || old(objects) == []
      ensures p.None? ==> objects == old(objects) && borrowed == old(borrowed)
      ensures p.Some? ==> old(objects) == [p.value] + objects
      ensures p.Some? ==> p.value !in old(borrowed) && borrowed == old(borrowed) + {p.value}
    {
      if timedOut {
        return None;
      }
      p := TryBorrow();
    }

    /** The pool does not look at what it is given: the books still balance exactly when that is an
        object that is out. */
    method Return(p: Option<T>)
      requires Valid()
      modifies this`objects, this`borrowed
      ensures Valid() <==> p.None? || p.value in old(borrowed)
      ensures objects == old(objects) + (if p.Some? then [p.value] else [])
      ensures borrowed == old(borrowed) - (if p.Some? then {p.value} else {})
    {
      if p.None? {
        return;
      }
      objects := objects + [p.value];
      borrowed := borrowed - {p.value};
    }

    /** The books still balance exactly when the pool is full or does not know the object. */
    method Add(p: T) returns (ok: bool)
      requires Valid()
      modifies this`objects, this`objectNum
      ensures Valid() <==> !ok || (p !in old(objects) && p !in borrowed)
      ensures ok <==> old(objectNum) < maxNum
      ensures objects == old(objects) + (if ok then [p] else [])
      ensures objectNum == old(objectNum) + (if ok then 1 else 0)
    {
      if objectNum >= maxNum {
        return false;
      }
      KnownTwice(objects, p);
      objects := objects + [p];
      objectNum := objectNum + 1;
      return true;
    }

    method Remove(p: T) returns (found: bool)
      requires Valid()
      modifies this`objects, this`objectNum
      ensures Valid()
      ensures found <==> p in old(objects)
      ensures !found ==> objects == old(objects) && objectNum == old(objectNum)
      ensures found ==> objectNum == old(objectNum) - 1 && p !in objects
      ensures found ==> exists k :: 0 <= k < |old(objects)| && old(objects)[k] == p &&
                                    objects == old(objects)[..k] + old(objects)[k + 1..]
    {
      var k := 0;
      while k < |objects|
        invariant 0 <= k <= |objects| && objects == old(objects) && objectNum == old(objectNum)
        invariant p !in objects[..k]
      {
        if objects[k] == p {
          objects := objects[..k] + objects[k + 1..];
          objectNum := objectNum - 1;
          return true;
        }
        k := k + 1;
      }
      return false;
    }

    /** Clearing keeps the books exactly when no object is out or being made. */
    method Clear()
      requires Valid()
      modifies this`objects, this`objectNum
      ensures objects == [] && objectNum == 0
      ensures Valid() <==> borrowed == {} && creating == 0
    {
      objects := [];
      objectNum := 0;
    }

    /** `BorrowNum` counts the objects that are out or being made. */
    function BorrowNum(): (n: int)
      requires Valid()
      reads this
      ensures n == |borrowed| + creating
    {
      objectNum - |objects|
    }
  }
}
