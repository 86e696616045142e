/**
 * The unique-slug allocator shared, in two identical copies, by posts and
 * recipes: try the base slug, then `base-1`, `base-2`, ... against the slugs
 * already in the table (ignoring the row being updated), cutting the base
 * short so that every candidate fits in 255 characters, and give up once the
 * counter passes 100.
 */
module SlugAllocator {
  import opened Wrappers
  import opened Text
  import opened SlugPattern
  import opened Records

  const MaxSlugLength: nat := 255
  const MaxAttempts: nat := 100

  /** "Could not generate a unique slug after 100 attempts." */
  datatype AllocationError = Exhausted

  /** `s.substring(0, n)`: JavaScript clamps a negative end to 0 and an end
      past the string to its length. */
  function Prefix(s: string, n: int): (r: string)
    ensures |r| == if n < 0 then 0 else if n < |s| then n else |s|
    ensures r <= s
  {
    if n <= 0 then [] else if n < |s| then s[..n] else s
  }

  /** `-${counter}` */
  function Suffix(counter: nat): string
  {
    "-" + DecimalDigits(counter)
  }

  /** The slug looked up on attempt `k`: the base cut to 255 characters on the
      first attempt, then the base cut to leave room for `-k`, followed by `-k`. */
  function Candidate(base: string, k: nat): string
  {
    if k == 0 then Prefix(base, MaxSlugLength)
    else Prefix(base, MaxSlugLength - |Suffix(k)|) + Suffix(k)
  }

  /** The slugs held by rows other than the excluded one. */
  function OtherSlugs<B>(table: map<Id, Row<B>>, exclude: Option<Id>): set<string>
  {
    set id | id in table && exclude != Some(id) :: table[id].slug
  }

  /** The `findFirst` query: some row other than the excluded one holds `slug`. */
  predicate SlugTaken<B>(table: map<Id, Row<B>>, exclude: Option<Id>, slug: string)
  {
    slug in OtherSlugs(table, exclude)
  }

  /** The first attempt, from `from` on, whose candidate is free; `MaxAttempts`
      when every remaining attempt is taken. */
  function FirstFree<B>(table: map<Id, Row<B>>, base: string, exclude: Option<Id>, from: nat): (k: nat)
    requires from <= MaxAttempts
    ensures from <= k <= MaxAttempts
    ensures forall j :: from <= j < k ==> SlugTaken(table, exclude, Candidate(base, j))
    ensures k < MaxAttempts ==> !SlugTaken(table, exclude, Candidate(base, k))
    decreases MaxAttempts - from
  {
    if from == MaxAttempts then MaxAttempts
    else if !SlugTaken(table, exclude, Candidate(base, from)) then from
    else FirstFree(table, base, exclude, from + 1)
  }

  /** What `generateUniquePostSlug(title, currentId)` returns for
      `base == slugify(title)`, or the error it throws. */
  function Allocation<B>(table: map<Id, Row<B>>, base: string, exclude: Option<Id>): Result<string, AllocationError>
  {
    var k := FirstFree(table, base, exclude, 0);
    if k < MaxAttempts then Success(Candidate(base, k)) else Failure(Exhausted)
  }

  /** A numbered candidate ends with its whole suffix and fits in 255
      characters; while the base leaves room, it is the base itself plus the suffix. */
  lemma CandidateShape(base: string, k: nat)
    requires 1 <= k <= MaxAttempts
    ensures |Candidate(base, k)| <= MaxSlugLength
    ensures Suffix(k) <= Candidate(base, k)[|Candidate(base, k)| - |Suffix(k)|..]
    ensures |base| + |Suffix(k)| <= MaxSlugLength ==> Candidate(base, k) == base + Suffix(k)
  {
    var c := Candidate(base, k);
    assert |Suffix(k)| <= 4;
    var p := Prefix(base, MaxSlugLength - |Suffix(k)|);
    assert c[|p|..] == Suffix(k);
  }

  /** The first candidate is the base cut to 255 characters. */
  lemma FirstCandidateIsBase(base: string)
    ensures Candidate(base, 0) == if |base| <= MaxSlugLength then base else base[..MaxSlugLength]
  {
  }

  /** No candidate is longer than 255 characters. */
  lemma CandidateFits(base: string, k: nat)
    requires k < MaxAttempts
    ensures |Candidate(base, k)| <= MaxSlugLength
  {
    if k > 0 { CandidateShape(base, k); }
  }

  /** The allocation, when it succeeds, is a slug no other row holds, of at
      most 255 characters, and is the first free candidate in the order base,
      `base-1`, ..., `base-99`. */
  lemma AllocationIsFreeAndFirst<B>(table: map<Id, Row<B>>, base: string, exclude: Option<Id>)
    ensures Allocation(table, base, exclude).Success? ==>
      var s := Allocation(table, base, exclude).value;
      var k := FirstFree(table, base, exclude, 0);
      && !SlugTaken(table, exclude, s)
      && |s| <= MaxSlugLength
      && k < MaxAttempts && s == Candidate(base, k)
      && forall j :: 0 <= j < k ==> SlugTaken(table, exclude, Candidate(base, j))
  {
    var k := FirstFree(table, base, exclude, 0);
    if k < MaxAttempts { CandidateFits(base, k); }
  }

  /** The allocation fails exactly when all hundred candidates are taken:
      `base-100` is formed but never looked up. */
  lemma AllocationFailsIffAllTaken<B>(table: map<Id, Row<B>>, base: string, exclude: Option<Id>)
    ensures Allocation(table, base, exclude).Failure? <==>
      forall j :: 0 <= j < MaxAttempts ==> SlugTaken(table, exclude, Candidate(base, j))
  {
  }

  /** The starting index of the search does not matter once every earlier
      candidate is known to be taken. */
  lemma {:induction false} FirstFreeSkipsTaken<B>(table: map<Id, Row<B>>, base: string, exclude: Option<Id>, from: nat, k: nat)
    requires from <= k <= MaxAttempts
    requires forall j :: from <= j < k ==> SlugTaken(table, exclude, Candidate(base, j))
    ensures FirstFree(table, base, exclude, from) == FirstFree(table, base, exclude, k)
    decreases k - from
  {
    if from < k {
      FirstFreeSkipsTaken(table, base, exclude, from + 1, k);
    }
  }

  /** A free base slug is kept as it is (cut to 255 characters). In particular
      re-allocating, for a row, the slug it already holds returns that slug
      when no other row shares it. */
  lemma FreeBaseIsKept<B>(table: map<Id, Row<B>>, base: string, exclude: Option<Id>)
    requires !SlugTaken(table, exclude, Prefix(base, MaxSlugLength))
    ensures Allocation(table, base, exclude) == Success(Prefix(base, MaxSlugLength))
  {
  }

  lemma OwnSlugIsKept<B>(table: map<Id, Row<B>>, id: Id)
    requires UniqueSlugs(table) && id in table && |table[id].slug| <= MaxSlugLength
    ensures Allocation(table, table[id].slug, Some(id)) == Success(table[id].slug)
  {
    var s := table[id].slug;
    assert Prefix(s, MaxSlugLength) == s;
    FreeBaseIsKept(table, s, Some(id));
  }

  /** Two rows created from the same base get different slugs: once the first
      allocation is stored, the second one cannot return it again. */
  lemma SecondAllocationDiffers<B>(table: map<Id, Row<B>>, base: string, id: Id, row: Row<B>)
    requires Allocation(table, base, None).Success?
    requires row.slug == Allocation(table, base, None).value
    requires Allocation(table[id := row], base, None).Success?
    ensures Allocation(table[id := row], base, None).value != row.slug
  {
    var t' := table[id := row];
    AllocationIsFreeAndFirst(t', base, None);
    assert row.slug in OtherSlugs(t', None) by {
      assert id in t' && t'[id].slug == row.slug;
    }
  }

  /** The allocator's loop. Each pass looks up the current candidate; on a hit
      it forms the next numbered candidate and counts the attempt, throwing
      once the counter passes 100. */
  method AllocateSlug<B>(table: map<Id, Row<B>>, base: string, exclude: Option<Id>)
    returns (r: Result<string, AllocationError>)
    ensures r == Allocation(table, base, exclude)
  {
    var uniqueSlug := base;
    var counter := 1;
    while SlugTaken(table, exclude, Prefix(uniqueSlug, MaxSlugLength))
      invariant 1 <= counter <= MaxAttempts
      invariant Prefix(uniqueSlug, MaxSlugLength) == Candidate(base, counter - 1)
      invariant forall j :: 0 <= j < counter - 1 ==> SlugTaken(table, exclude, Candidate(base, j))
      decreases MaxAttempts - counter
    {
      ghost var taken := Candidate(base, counter - 1);
      assert SlugTaken(table, exclude, taken);
      var suffix := "-" + DecimalDigits(counter);
      assert suffix == Suffix(counter);
      var availableLength := MaxSlugLength - |suffix|;
      uniqueSlug := Prefix(base, availableLength) + suffix;
      assert uniqueSlug == Candidate(base, counter);
      CandidateShape(base, counter);
      assert Prefix(uniqueSlug, MaxSlugLength) == uniqueSlug;
      counter := counter + 1;
      if counter > MaxAttempts {
        FirstFreeSkipsTaken(table, base, exclude, 0, MaxAttempts);
        return Failure(Exhausted);
      }
    }
    FirstFreeSkipsTaken(table, base, exclude, 0, counter - 1);
    r := Success(Prefix(uniqueSlug, MaxSlugLength));
  }
}
