// The registry: entries kept sorted by package id, so that an id occurs once.
module CapRegistry {
  import opened Wrappers
  import opened CapModel

  // Order of Rust strings: by scalar values, left to right.
  predicate Less(s: string, t: string) {
    if t == "" then false
    else if s == "" then true
    else s[0] < t[0] || (s[0] == t[0] && Less(s[1..], t[1..]))
  }

  lemma {:induction false} LessTransitive(s: string, t: string, u: string)
    requires Less(s, t) && Less(t, u)
    ensures Less(s, u)
  {
    if s != "" && t != "" && s[0] == t[0] == u[0] { LessTransitive(s[1..], t[1..], u[1..]); }
  }

  lemma {:induction false} LessTotal(s: string, t: string)
    ensures Less(s, t) || Less(t, s) || s == t
    ensures !(Less(s, t) && Less(t, s)) && !Less(s, s)
  {
    if s != "" && t != "" && s[0] == t[0] {
      LessTotal(s[1..], t[1..]);
      assert s == [s[0]] + s[1..] && t == [t[0]] + t[1..];
    }
    if s != "" { LessTotal(s[1..], s[1..]); }
  }

  ghost predicate Absent(entries: seq<Entry>, id: string) {
    forall e :: e in entries ==> e.packageId != id
  }

  ghost predicate Sorted(entries: seq<Entry>) {
    entries == [] ||
    ((forall e :: e in entries[1..] ==> Less(entries[0].packageId, e.packageId)) && Sorted(entries[1..]))
  }

  // In place if the id is there, at the end if not.
  function Replace(entries: seq<Entry>, e: Entry): seq<Entry> {
    if entries == [] then [e]
    else if entries[0].packageId == e.packageId then [e] + entries[1..]
    else [entries[0]] + Replace(entries[1..], e)
  }

  function Insert(e: Entry, entries: seq<Entry>): seq<Entry> {
    if entries == [] || !Less(entries[0].packageId, e.packageId) then [e] + entries
    else [entries[0]] + Insert(e, entries[1..])
  }

  function SortById(entries: seq<Entry>): seq<Entry> {
    if entries == [] then [] else Insert(entries[0], SortById(entries[1..]))
  }

  function Upsert(entries: seq<Entry>, e: Entry): seq<Entry> { SortById(Replace(entries, e)) }

  function Remove(entries: seq<Entry>, id: string): (r: seq<Entry>)
    ensures forall e :: e in r ==> e in entries
  {
    if entries == [] then []
    else if entries[0].packageId == id then Remove(entries[1..], id)
    else [entries[0]] + Remove(entries[1..], id)
  }

  // Only what is known of id differs between the two registries.
  ghost predicate Differ(s: seq<Entry>, t: seq<Entry>, id: string, e: Option<Entry>) {
    Find(t, id) == e && forall q :: q != id ==> Find(t, q) == Find(s, q)
  }

  lemma {:induction false} FindAbsent(entries: seq<Entry>, id: string)
    ensures Find(entries, id).None? <==> Absent(entries, id)
  {}

  lemma {:induction false} SortedHead(entries: seq<Entry>)
    requires Sorted(entries) && entries != []
    ensures Absent(entries[1..], entries[0].packageId)
  {
    forall e | e in entries[1..] ensures e.packageId != entries[0].packageId {
      LessTotal(entries[0].packageId, e.packageId);
    }
  }

  // In a sorted registry an entry is what a search for its id finds.
  lemma {:induction false} FindSorted(entries: seq<Entry>, e: Entry)
    requires Sorted(entries) && e in entries
    ensures Find(entries, e.packageId) == Some(e)
  {
    if entries[0] != e {
      SortedHead(entries);
      FindSorted(entries[1..], e);
    }
  }

  lemma {:induction false} InsertLemma(e: Entry, entries: seq<Entry>)
    requires Sorted(entries) && Absent(entries, e.packageId)
    ensures Sorted(Insert(e, entries)) && |Insert(e, entries)| == |entries| + 1
    ensures forall x :: x in Insert(e, entries) <==> x == e || x in entries
    ensures Differ(entries, Insert(e, entries), e.packageId, Some(e))
  {
    if entries != [] {
      var h := entries[0];
      if !Less(h.packageId, e.packageId) {
        LessTotal(h.packageId, e.packageId);
        forall x | x in entries ensures Less(e.packageId, x.packageId) {
          if x != h { LessTransitive(e.packageId, h.packageId, x.packageId); }
        }
        assert ([e] + entries)[1..] == entries;
      } else {
        InsertLemma(e, entries[1..]);
        assert Insert(e, entries)[1..] == Insert(e, entries[1..]);
      }
    } else {
      assert [e][1..] == [];
    }
  }

  lemma {:induction false} ReplaceLemma(entries: seq<Entry>, e: Entry)
    requires Sorted(entries)
    ensures Differ(entries, Replace(entries, e), e.packageId, Some(e))
    ensures |Replace(entries, e)| == |entries| + if Find(entries, e.packageId).Some? then 0 else 1
    ensures Find(entries, e.packageId).Some? ==> Sorted(Replace(entries, e))
    ensures forall x :: x in Replace(entries, e) ==> x == e || x in entries
  {
    if entries != [] {
      var r := Replace(entries, e);
      if entries[0].packageId == e.packageId {
        assert r[1..] == entries[1..];
      } else {
        ReplaceLemma(entries[1..], e);
        assert r[1..] == Replace(entries[1..], e);
        if Find(entries, e.packageId).Some? {
          assert Less(entries[0].packageId, Find(entries[1..], e.packageId).value.packageId);
        }
      }
    } else {
      assert [e][1..] == [];
    }
  }

  lemma {:induction false} SortedIsSorted(entries: seq<Entry>)
    requires Sorted(entries)
    ensures SortById(entries) == entries
  {
    if entries != [] {
      SortedIsSorted(entries[1..]);
      if |entries| > 1 {
        assert Less(entries[0].packageId, entries[1].packageId);
        LessTotal(entries[0].packageId, entries[1].packageId);
      }
    }
  }

  // s sorted, e appended: sorting puts e where it belongs.
  lemma {:induction false} SortAppended(s: seq<Entry>, e: Entry)
    requires Sorted(s) && Absent(s, e.packageId)
    ensures SortById(s + [e]) == Insert(e, s)
    decreases |s|
  {
    if s == [] {
      assert SortById([e]) == Insert(e, SortById([e][1..]));
    } else {
      SortAppended(s[1..], e);
      assert (s + [e])[1..] == s[1..] + [e];
      InsertsSwap(s[0], e, s[1..]);
    }
  }

  lemma {:induction false} InsertsSwap(h: Entry, e: Entry, t: seq<Entry>)
    requires Sorted([h] + t) && h.packageId != e.packageId
    ensures Insert(h, Insert(e, t)) == Insert(e, [h] + t)
  {
    var s := [h] + t;
    assert s[1..] == t;
    LessTotal(h.packageId, e.packageId);
    if Less(h.packageId, e.packageId) {
      var r := Insert(e, t);
      if t != [] {
        assert Less(h.packageId, t[0].packageId);
        LessTotal(h.packageId, t[0].packageId);
      }
      assert Insert(h, r) == [h] + r;
    } else {
      if t != [] {
        assert Less(h.packageId, t[0].packageId);
        LessTransitive(e.packageId, h.packageId, t[0].packageId);
        LessTotal(e.packageId, t[0].packageId);
        LessTotal(h.packageId, t[0].packageId);
      }
      assert Insert(e, t) == [e] + t;
      assert ([e] + t)[1..] == t;
      assert Insert(h, [e] + t) == [e] + Insert(h, t);
      assert Insert(h, t) == [h] + t;
    }
  }

  // An upsert changes the entry of one id and keeps the registry sorted.
  lemma UpsertLemma(entries: seq<Entry>, e: Entry)
    requires Sorted(entries)
    ensures Sorted(Upsert(entries, e)) && Differ(entries, Upsert(entries, e), e.packageId, Some(e))
    ensures |Upsert(entries, e)| == |entries| + if Find(entries, e.packageId).Some? then 0 else 1
  {
    ReplaceLemma(entries, e);
    if Find(entries, e.packageId).Some? {
      SortedIsSorted(Replace(entries, e));
    } else {
      FindAbsent(entries, e.packageId);
      ReplaceAbsent(entries, e);
      SortAppended(entries, e);
      InsertLemma(e, entries);
    }
  }

  lemma {:induction false} ReplaceAbsent(entries: seq<Entry>, e: Entry)
    requires Absent(entries, e.packageId)
    ensures Replace(entries, e) == entries + [e]
  {
    if entries != [] { ReplaceAbsent(entries[1..], e); }
  }

  lemma {:induction false} RemoveLemma(entries: seq<Entry>, id: string)
    requires Sorted(entries)
    ensures Sorted(Remove(entries, id)) && Differ(entries, Remove(entries, id), id, None)
    ensures |Remove(entries, id)| == |entries| - if Find(entries, id).Some? then 1 else 0
  {
    if entries != [] {
      RemoveLemma(entries[1..], id);
      if entries[0].packageId == id {
        SortedHead(entries);
        FindAbsent(entries[1..], id);
      } else {
        assert Remove(entries, id)[1..] == Remove(entries[1..], id);
      }
    }
  }
}
