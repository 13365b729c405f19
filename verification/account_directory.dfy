/**
  Reading every account page by page: allAccounts of
  apps/api/src/workforce-administration/facade.ts over the store's key-set pages
  (packages/crm-modules/workforce-access/src/postgres-store.ts).  Accounts are named by their
  place in the order of their ids.
*/
module AccountDirectory {
  import opened Basics

  datatype Page = Page(items: seq<nat>, nextCursor: Option<nat>)

  const PAGE_SIZE: nat := 200
  const ACCOUNT_LIMIT: nat := 10000

  /** How many ids are not after the cursor. */
  function Passed(ids: seq<nat>, cursor: Option<nat>): (n: nat)
    ensures n <= |ids|
  {
    if cursor.None? || ids == [] || ids[0] > cursor.value then 0 else 1 + Passed(ids[1..], cursor)
  }

  /** The accounts after the cursor, at most a page of them, and a cursor if more remain. */
  function ListAccounts(ids: seq<nat>, cursor: Option<nat>): Page {
    var rest := ids[Passed(ids, cursor)..];
    var items := rest[..Min(|rest|, PAGE_SIZE)];
    Page(items, if |rest| > PAGE_SIZE then Some(items[|items| - 1]) else None)
  }

  lemma {:induction false} PassedThrough(ids: seq<nat>, n: nat)
    requires Ascending(ids) && 0 < n <= |ids|
    ensures Passed(ids, Some(ids[n - 1])) == n
  {
    assert ids[0] <= ids[n - 1];
    if n > 1 {
      assert ids[1..][n - 2] == ids[n - 1];
      PassedThrough(ids[1..], n - 1);
    } else if |ids| > 1 {
      assert ids[1..][0] == ids[1];
    }
  }

  function CursorAt(ids: seq<nat>, n: nat): Option<nat>
    requires n <= |ids|
  {
    if n == 0 then None else Some(ids[n - 1])
  }

  /** The page after the first n accounts. */
  lemma PageAt(ids: seq<nat>, n: nat)
    requires Ascending(ids) && n <= |ids|
    ensures var next := if |ids| - n <= 200 then |ids| else n + 200;
            ListAccounts(ids, CursorAt(ids, n)) == Page(ids[n..next], if next < |ids| then CursorAt(ids, next) else None)
  {
    if n > 0 { PassedThrough(ids, n); }
    var next := n + Min(|ids| - n, PAGE_SIZE);
    assert ids[n..][..next - n] == ids[n..next];
  }

  /** Every account comes back once and in order, as long as the last page boundary is within the limit: up to 10,200 accounts. */
  method AllAccounts(ids: seq<nat>) returns (accounts: Option<seq<nat>>)
    requires Ascending(ids)
    ensures accounts == if |ids| <= 10200 then Some(ids) else None
  {
    hide ListAccounts, Passed;
    var found: seq<nat> := [];
    var cursors: set<nat> := {};
    var cursor: Option<nat> := None;
    ghost var pages := 0;
    while true
      invariant |found| == pages * PAGE_SIZE <= ACCOUNT_LIMIT && |found| <= |ids| && found == ids[..|found|]
      invariant cursor == CursorAt(ids, |found|) && (found != [] ==> |found| < |ids|)
      invariant forall c :: c in cursors ==> found != [] && c <= ids[|found| - 1]
      decreases |ids| - |found|
    {
      PageAt(ids, |found|);
      var page := ListAccounts(ids, cursor);
      ghost var before := |found|;
      assert ids[..before] + page.items == ids[..before + |page.items|];
      found := found + page.items;
      pages := pages + 1;
      if page.nextCursor.None? {
        assert |found| == |ids| && ids[..|ids|] == ids;
        return Some(found);
      }
      assert before > 0 ==> ids[before - 1] < ids[|found| - 1];
      if page.nextCursor.value in cursors || |found| > ACCOUNT_LIMIT {
        return None;
      }
      cursors := cursors + {page.nextCursor.value};
      cursor := page.nextCursor;
    }
  }
}
