/** The hero system of the game server: the current heroes, every character
    that was ever a hero, each hero's diary and each hero's message, and the
    rotation that crowns the next period's heroes.

    Hero records (the source's `StatsSet`s) are values here. Where the
    source puts one record object into both the current and the all-time map
    and then mutates it, the model writes the same new value into both maps.
    The database is a log of the writes issued (`writes`); the clan table,
    the clock and the NPC and castle tables are parameters. */
module Heroes {
  import opened Common

  /** The clan columns `updateHeroes` copies into a new hero's record. */
  datatype ClanFields = ClanFields(clanCrest: int, clanName: string, allyCrest: int, allyName: string)

  datatype HeroRecord = HeroRecord(
    name: string, classId: int, count: int32, played: int, claimed: bool, clan: Option<ClanFields>)

  /** One entry of the list `computeNewHeroes` receives. */
  datatype NewHero = NewHero(charId: int, name: string, classId: int)

  datatype DiaryEntry = DiaryEntry(date: string, action: string)

  /** The row the clan/ally query returns for a character. */
  datatype ClanAllyRow = ClanAllyRow(clanId: int, allyId: int)

  /** What the clan table knows of a clan. */
  datatype Clan = Clan(name: string, crestId: int, allyName: string, allyCrestId: int)

  /** A write issued to the hero tables. */
  datatype HeroWrite =
    | ResetPlayed
    | DeleteHeroItems
    | InsertHero(charId: int, classId: int, count: int, played: int, claimed: bool)
    | UpdateHero(charId: int, count: int, played: int, claimed: bool)
    | DiaryInsert(charId: int, time: int, action: int, param: int)
    | MessageWrite(charId: int, message: Option<string>)

  const ACTION_RAID_KILLED: int := 1
  const ACTION_CASTLE_TAKEN: int := 3
  const PER_PAGE: int := 10

  // ---- the rotation

  /** A returning hero: one more period, playing, reward not claimed. */
  function Returned(r: HeroRecord): HeroRecord {
    r.(count := Wrap32(r.count as int + 1), played := 1, claimed := false)
  }

  /** A hero for the first time. */
  function FirstTime(h: NewHero): HeroRecord {
    HeroRecord(h.name, h.classId, 1, 1, false, None)
  }

  /** One turn of the rotation loop over (current heroes, all-time heroes). */
  function RotateStep(heroes: map<int, HeroRecord>, complete: map<int, HeroRecord>, h: NewHero)
    : (map<int, HeroRecord>, map<int, HeroRecord>)
  {
    if h.charId in complete then
      var r := Returned(complete[h.charId]);
      (heroes[h.charId := r], complete[h.charId := r])
    else
      (heroes[h.charId := FirstTime(h)], complete)
  }

  /** The maps after the rotation loop has run over `s`, starting from no current heroes. */
  function Rotation(complete: map<int, HeroRecord>, s: seq<NewHero>): (r: (map<int, HeroRecord>, map<int, HeroRecord>))
    ensures r.1.Keys == complete.Keys
  {
    if s == [] then (map[], complete)
    else
      var before := Rotation(complete, s[..|s| - 1]);
      RotateStep(before.0, before.1, s[|s| - 1])
  }

  function CharIds(s: seq<NewHero>): set<int> {
    set k | 0 <= k < |s| :: s[k].charId
  }

  function Occurrences(s: seq<NewHero>, id: int): nat {
    if s == [] then 0 else Occurrences(s[..|s| - 1], id) + (if s[|s| - 1].charId == id then 1 else 0)
  }

  /** A count after `n` Java `int` increments. */
  function Incremented(c: int32, n: nat): (r: int32)
    ensures IsInt32(c as int + n) ==> r as int == c as int + n
  {
    if n == 0 then c else Wrap32(Incremented(c, n - 1) as int + 1)
  }

  /** A record that returned `n` times. */
  function Bumped(r: HeroRecord, n: nat): HeroRecord {
    if n == 0 then r else r.(count := Incremented(r.count, n), played := 1, claimed := false)
  }

  /** The current heroes are exactly the listed characters; the all-time
      map keeps its key set (first-timers join it only in `updateHeroes`). */
  lemma {:induction false} RotationKeys(complete: map<int, HeroRecord>, s: seq<NewHero>)
    ensures Rotation(complete, s).0.Keys == CharIds(s)
    ensures Rotation(complete, s).1.Keys == complete.Keys
    decreases |s|
  {
    if s != [] {
      var front := s[..|s| - 1];
      RotationKeys(complete, front);
      assert CharIds(s) == CharIds(front) + {s[|s| - 1].charId} by {
        forall id | id in CharIds(s) ensures id in CharIds(front) + {s[|s| - 1].charId} {
          var k :| 0 <= k < |s| && s[k].charId == id;
          if k < |s| - 1 { assert front[k] == s[k]; }
        }
        forall id | id in CharIds(front) ensures id in CharIds(s) {
          var k :| 0 <= k < |front| && front[k].charId == id;
          assert s[k] == front[k];
        }
      }
    }
  }

  /** A returning hero holds the same record in both maps. */
  lemma {:induction false} RotationAgrees(complete: map<int, HeroRecord>, s: seq<NewHero>)
    ensures var (h, c) := Rotation(complete, s);
      forall id | id in h && id in complete :: id in c && c[id] == h[id]
    decreases |s|
  {
    if s != [] {
      RotationAgrees(complete, s[..|s| - 1]);
      RotationKeys(complete, s[..|s| - 1]);
    }
  }

  /** A hero already in the all-time map comes back with one more period per
      listing, playing, and with the reward unclaimed. */
  lemma {:induction false} RotationReturning(complete: map<int, HeroRecord>, s: seq<NewHero>, id: int)
    requires id in complete
    ensures Rotation(complete, s).1[id] == Bumped(complete[id], Occurrences(s, id))
    decreases |s|
  {
    RotationKeys(complete, s);
    if s != [] {
      var front := s[..|s| - 1];
      RotationReturning(complete, front, id);
      RotationKeys(complete, front);
    }
  }

  /** A hero for the first time gets a fresh record from its last listing:
      one period, playing, reward unclaimed, no clan columns yet. */
  lemma {:induction false} RotationFirstTime(complete: map<int, HeroRecord>, s: seq<NewHero>, k: int)
    requires 0 <= k < |s| && s[k].charId !in complete
    requires forall j | k < j < |s| :: s[j].charId != s[k].charId
    ensures s[k].charId in Rotation(complete, s).0
    ensures Rotation(complete, s).0[s[k].charId] == FirstTime(s[k])
    decreases |s|
  {
    var front := s[..|s| - 1];
    RotationKeys(complete, front);
    if k < |s| - 1 {
      RotationFirstTime(complete, front, k);
    }
  }

  // ---- updateHeroes(false)

  /** The clan table knows every clan a clan/ally row names. */
  predicate ClanTableCovers(rows: map<int, ClanAllyRow>, clans: map<int, Clan>) {
    forall id | id in rows :: rows[id].clanId > 0 ==> rows[id].clanId in clans
  }

  /** The clan columns for a row: clan name and crest when the character has
      a clan, ally name and crest as well when that clan has an ally. */
  function ClanFieldsFor(row: ClanAllyRow, clans: map<int, Clan>): (f: ClanFields)
    requires row.clanId > 0 ==> row.clanId in clans
    ensures row.clanId <= 0 ==> f == ClanFields(0, "", 0, "")
    ensures row.clanId > 0 ==> f.clanName == clans[row.clanId].name && f.clanCrest == clans[row.clanId].crestId
    ensures row.clanId > 0 && row.allyId > 0 ==>
      f.allyName == clans[row.clanId].allyName && f.allyCrest == clans[row.clanId].allyCrestId
    ensures row.allyId <= 0 ==> f.allyName == "" && f.allyCrest == 0
  {
    if row.clanId > 0 then
      var c := clans[row.clanId];
      if row.allyId > 0 then ClanFields(c.crestId, c.name, c.allyCrestId, c.allyName)
      else ClanFields(c.crestId, c.name, 0, "")
    else ClanFields(0, "", 0, "")
  }

  /** The record with the clan columns set, when the query returns a row. */
  function WithClan(r: HeroRecord, id: int, rows: map<int, ClanAllyRow>, clans: map<int, Clan>): HeroRecord
    requires ClanTableCovers(rows, clans)
  {
    if id in rows then r.(clan := Some(ClanFieldsFor(rows[id], clans))) else r
  }

  /** `heroes` and `complete` are `h0` and `c0` once the current heroes in
      `done` have been visited: each visited newcomer carries its clan
      columns and has joined the all-time map; nothing else differs. */
  ghost predicate PromotedOn(h0: map<int, HeroRecord>, c0: map<int, HeroRecord>, done: set<int>,
                             heroes: map<int, HeroRecord>, complete: map<int, HeroRecord>,
                             rows: map<int, ClanAllyRow>, clans: map<int, Clan>)
    requires ClanTableCovers(rows, clans)
  {
    && heroes.Keys == h0.Keys
    && (forall id | id in h0 ::
          heroes[id] == if id in done && id !in c0 then WithClan(h0[id], id, rows, clans) else h0[id])
    && complete.Keys == c0.Keys + (h0.Keys * done)
    && (forall id | id in complete ::
          complete[id] == if id in c0 then c0[id] else WithClan(h0[id], id, rows, clans))
  }

  /** The outcome of `updateHeroes(false)` on `h0` and `c0`. */
  ghost predicate Promoted(h0: map<int, HeroRecord>, c0: map<int, HeroRecord>,
                           heroes: map<int, HeroRecord>, complete: map<int, HeroRecord>,
                           rows: map<int, ClanAllyRow>, clans: map<int, Clan>)
    requires ClanTableCovers(rows, clans)
  {
    PromotedOn(h0, c0, h0.Keys, heroes, complete, rows, clans)
  }

  /** The write `updateHeroes` issues for one current hero. */
  function WriteFor(id: int, heroes: map<int, HeroRecord>, complete: map<int, HeroRecord>): HeroWrite
    requires id in heroes
  {
    var r := heroes[id];
    if id in complete then UpdateHero(id, r.count as int, r.played, r.claimed)
    else InsertHero(id, r.classId, r.count as int, r.played, r.claimed)
  }

  function WritesFor(order: seq<int>, heroes: map<int, HeroRecord>, complete: map<int, HeroRecord>): (w: seq<HeroWrite>)
    requires forall k | 0 <= k < |order| :: order[k] in heroes
    ensures |w| == |order|
    ensures forall k | 0 <= k < |order| :: w[k] == WriteFor(order[k], heroes, complete)
  {
    if order == [] then []
    else WritesFor(order[..|order| - 1], heroes, complete) + [WriteFor(order[|order| - 1], heroes, complete)]
  }

  lemma WritesForSnoc(order: seq<int>, id: int, heroes: map<int, HeroRecord>, complete: map<int, HeroRecord>)
    requires forall k | 0 <= k < |order| :: order[k] in heroes
    requires id in heroes
    ensures WritesFor(order + [id], heroes, complete) == WritesFor(order, heroes, complete) + [WriteFor(id, heroes, complete)]
  {
    assert (order + [id])[..|order|] == order;
  }

  /** The two hero maps and the writes issued so far, as `updateHeroes` changes them. */
  datatype HeroTables = HeroTables(heroes: map<int, HeroRecord>, complete: map<int, HeroRecord>, writes: seq<HeroWrite>)

  /** One turn of `updateHeroes`' loop, for the current hero `id`: the write
      for it is issued; a newcomer also gets its clan columns and joins the
      all-time map. */
  function PromoteStep(t: HeroTables, id: int, rows: map<int, ClanAllyRow>, clans: map<int, Clan>): (r: HeroTables)
    requires ClanTableCovers(rows, clans) && id in t.heroes
    ensures r.heroes.Keys == t.heroes.Keys
  {
    var w := t.writes + [WriteFor(id, t.heroes, t.complete)];
    if id !in t.complete then
      var promoted := WithClan(t.heroes[id], id, rows, clans);
      HeroTables(t.heroes[id := promoted], t.complete[id := promoted], w)
    else
      t.(writes := w)
  }

  /** The loop of `updateHeroes(false)` run over the heroes in `order`. */
  function PromoteAll(t: HeroTables, order: seq<int>, rows: map<int, ClanAllyRow>, clans: map<int, Clan>): (r: HeroTables)
    requires ClanTableCovers(rows, clans) && forall k | 0 <= k < |order| :: order[k] in t.heroes
    ensures r.heroes.Keys == t.heroes.Keys
  {
    if order == [] then t
    else PromoteStep(PromoteAll(t, order[..|order| - 1], rows, clans), order[|order| - 1], rows, clans)
  }

  predicate Distinct(s: seq<int>) {
    forall j, k | 0 <= j < k < |s| :: s[j] != s[k]
  }

  function Elements(s: seq<int>): set<int> {
    set x | x in s
  }

  /** Visiting distinct heroes promotes exactly the visited ones, whatever
      the order, and issues one write per visit, each decided by the maps
      as they were before the loop. */
  lemma {:induction false} PromoteAllPromotes(t: HeroTables, order: seq<int>, rows: map<int, ClanAllyRow>, clans: map<int, Clan>)
    requires ClanTableCovers(rows, clans) && Distinct(order)
    requires forall k | 0 <= k < |order| :: order[k] in t.heroes
    ensures var r := PromoteAll(t, order, rows, clans);
      && PromotedOn(t.heroes, t.complete, Elements(order), r.heroes, r.complete, rows, clans)
      && r.writes == t.writes + WritesFor(order, t.heroes, t.complete)
  {
    if order == [] {
      assert t.heroes.Keys * Elements(order) == {};
    } else {
      var p := order[..|order| - 1];
      var id := order[|order| - 1];
      assert order == p + [id];
      assert Elements(order) == Elements(p) + {id};
      assert id !in Elements(p) by {
        forall j | 0 <= j < |p| ensures p[j] != id {
          assert order[j] == p[j];
        }
      }
      var before := PromoteAll(t, p, rows, clans);
      PromoteAllPromotes(t, p, rows, clans);
      PromoteStepOn(t.heroes, t.complete, Elements(p), before, id, rows, clans);
      var w := WriteFor(id, t.heroes, t.complete);
      WritesForSnoc(p, id, t.heroes, t.complete);
      calc {
        PromoteAll(t, order, rows, clans).writes;
        PromoteStep(before, id, rows, clans).writes;
        before.writes + [w];
        (t.writes + WritesFor(p, t.heroes, t.complete)) + [w];
        { ConcatAssociates(t.writes, WritesFor(p, t.heroes, t.complete), [w]); }
        t.writes + (WritesFor(p, t.heroes, t.complete) + [w]);
        t.writes + WritesFor(order, t.heroes, t.complete);
      }
    }
  }

  /** The state of `updateHeroes`' loop: `order` lists the visited heroes,
      `pending` the others, and `t` is the outcome of visiting `order`. */
  ghost predicate Visiting(t0: HeroTables, pending: set<int>, order: seq<int>, t: HeroTables,
                           rows: map<int, ClanAllyRow>, clans: map<int, Clan>)
    requires ClanTableCovers(rows, clans)
  {
    && pending <= t0.heroes.Keys
    && Elements(order) == t0.heroes.Keys - pending && Distinct(order)
    && (forall k | 0 <= k < |order| :: order[k] in t0.heroes)
    && t == PromoteAll(t0, order, rows, clans)
  }

  lemma VisitingStep(t0: HeroTables, pending: set<int>, order: seq<int>, t: HeroTables, id: int,
                     rows: map<int, ClanAllyRow>, clans: map<int, Clan>)
    requires ClanTableCovers(rows, clans) && id in pending
    requires Visiting(t0, pending, order, t, rows, clans)
    ensures id in t.heroes
    ensures Visiting(t0, pending - {id}, order + [id], PromoteStep(t, id, rows, clans), rows, clans)
  {
    assert (order + [id])[..|order|] == order;
    assert Elements(order + [id]) == Elements(order) + {id};
  }

  /** One visit extends the promoted set by the visited hero. */
  lemma PromoteStepOn(h0: map<int, HeroRecord>, c0: map<int, HeroRecord>, done: set<int>, t: HeroTables, id: int,
                      rows: map<int, ClanAllyRow>, clans: map<int, Clan>)
    requires ClanTableCovers(rows, clans) && id in h0 && id !in done
    requires PromotedOn(h0, c0, done, t.heroes, t.complete, rows, clans)
    ensures var r := PromoteStep(t, id, rows, clans);
      && PromotedOn(h0, c0, done + {id}, r.heroes, r.complete, rows, clans)
      && r.writes == t.writes + [WriteFor(id, h0, c0)]
  {
    assert h0.Keys * (done + {id}) == h0.Keys * done + {id};
  }

  /** After promotion every current hero is in the all-time map with the
      same record, and nothing already there changes. */
  lemma PromotionRecordsAll(h0: map<int, HeroRecord>, c0: map<int, HeroRecord>,
                            heroes: map<int, HeroRecord>, complete: map<int, HeroRecord>,
                            rows: map<int, ClanAllyRow>, clans: map<int, Clan>)
    requires ClanTableCovers(rows, clans) && Promoted(h0, c0, heroes, complete, rows, clans)
    requires forall id | id in h0 && id in c0 :: c0[id] == h0[id]
    ensures heroes.Keys == h0.Keys && complete.Keys == c0.Keys + h0.Keys
    ensures forall id | id in heroes :: id in complete && complete[id] == heroes[id]
    ensures forall id | id in c0 :: complete[id] == c0[id]
  {
  }

  /** The whole rotation: the current heroes are exactly the listed
      characters, each recorded in the all-time map with the same record,
      and every all-time hero not listed keeps its record. */
  lemma RotationRecordsAll(c0: map<int, HeroRecord>, s: seq<NewHero>,
                           heroes: map<int, HeroRecord>, complete: map<int, HeroRecord>,
                           rows: map<int, ClanAllyRow>, clans: map<int, Clan>)
    requires ClanTableCovers(rows, clans)
    requires Promoted(Rotation(c0, s).0, Rotation(c0, s).1, heroes, complete, rows, clans)
    ensures heroes.Keys == CharIds(s)
    ensures forall id | id in heroes :: id in complete && complete[id] == heroes[id]
    ensures forall id | id in c0 && Occurrences(s, id) == 0 :: id in complete && complete[id] == c0[id]
  {
    var (h1, c1) := Rotation(c0, s);
    RotationKeys(c0, s);
    RotationAgrees(c0, s);
    PromotionRecordsAll(h1, c1, heroes, complete, rows, clans);
    forall id | id in c0 && Occurrences(s, id) == 0
      ensures c1[id] == c0[id]
    {
      RotationReturning(c0, s, id);
    }
  }

  // ---- the diary page

  datatype DiaryRow = DiaryRow(entry: DiaryEntry, shaded: bool)

  /** A page button: the bypass carries the hero class and the target page. */
  datatype DiaryButton = DiaryButton(heroClass: int, page: int32)

  /** What `showHeroDiary` does: nothing, a page, or it throws on a negative index. */
  datatype DiaryReply =
    | NoReply
    | Reply(message: string, rows: seq<DiaryRow>, prev: Option<DiaryButton>, next: Option<DiaryButton>)
    | IndexOutOfBounds

  function Reversed<T>(s: seq<T>): (r: seq<T>)
    ensures |r| == |s| && forall k | 0 <= k < |s| :: r[k] == s[|s| - 1 - k]
  {
    if s == [] then [] else [s[|s| - 1]] + Reversed(s[..|s| - 1])
  }

  /** `(page - 1) * perpage` in Java `int`s. */
  function FirstIndex(page: int32): int32 {
    Wrap32(Wrap32(page as int - 1) * PER_PAGE)
  }

  /** Up to ten entries of the newest-first list from `start`, shading alternating. */
  function Window(newestFirst: seq<DiaryEntry>, start: int): (rows: seq<DiaryRow>)
    requires 0 <= start
  {
    var m := if start >= |newestFirst| then 0 else if |newestFirst| - start < PER_PAGE then |newestFirst| - start else PER_PAGE;
    seq(m, k requires 0 <= k < m => DiaryRow(newestFirst[start + k], k % 2 == 0))
  }

  function DiaryPage(diary: Option<seq<DiaryEntry>>, message: Option<string>, htmlAvailable: bool,
                     heroClass: int, page: int32): DiaryReply
  {
    if diary.None? || !htmlAvailable || message.None? then NoReply
    else if diary.value == [] then Reply(message.value, [], None, None)
    else
      var start := FirstIndex(page);
      if start < 0 then IndexOutOfBounds
      else
        var list := Reversed(diary.value);
        var rows := Window(list, start as int);
        var breakat := if rows == [] then 0 else start as int + |rows| - 1;
        Reply(message.value, rows,
              if breakat < |list| - 1 then Some(DiaryButton(heroClass, Wrap32(page as int + 1))) else None,
              if page > 1 then Some(DiaryButton(heroClass, Wrap32(page as int - 1))) else None)
  }

  /** No page shows more than ten entries, and each shown entry is the
      diary's `start + k`-th newest, shaded on even rows. */
  lemma PageContents(diary: seq<DiaryEntry>, message: string, heroClass: int, page: int32)
    requires diary != [] && FirstIndex(page) >= 0
    ensures var r := DiaryPage(Some(diary), Some(message), true, heroClass, page);
      && r.Reply? && |r.rows| <= PER_PAGE
      && (forall k | 0 <= k < |r.rows| ::
            FirstIndex(page) as int + k < |diary|
            && r.rows[k] == DiaryRow(diary[|diary| - 1 - (FirstIndex(page) as int + k)], k % 2 == 0))
  {
  }

  /** For a start inside the list, "Prev" (the older page, `page + 1`)
      appears exactly when entries remain past this page, and "Next" (the
      newer page) exactly when `page > 1`. */
  lemma PageButtons(diary: seq<DiaryEntry>, message: string, heroClass: int, page: int32)
    requires 0 <= FirstIndex(page) < |diary|
    ensures var r := DiaryPage(Some(diary), Some(message), true, heroClass, page);
      && r.Reply?
      && (r.prev.Some? <==> FirstIndex(page) as int + PER_PAGE < |diary|)
      && (r.prev.Some? ==> r.prev.value == DiaryButton(heroClass, Wrap32(page as int + 1)))
      && (r.next.Some? <==> page > 1)
      && |r.rows| == if |diary| - FirstIndex(page) as int < PER_PAGE then |diary| - FirstIndex(page) as int else PER_PAGE
  {
  }

  /** A page past the end shows no entry; the loop's last index stays 0, so
      "Prev" still appears whenever the diary has two entries or more. */
  lemma PageButtonsPastEnd(diary: seq<DiaryEntry>, message: string, heroClass: int, page: int32)
    requires diary != [] && FirstIndex(page) as int >= |diary|
    ensures var r := DiaryPage(Some(diary), Some(message), true, heroClass, page);
      && r.Reply? && r.rows == []
      && (r.prev.Some? <==> |diary| >= 2)
      && (r.next.Some? <==> page > 1)
  {
  }

  /** Without 32-bit overflow the first index is `(page - 1) * 10`, and a
      non-empty diary throws for every page below 1. */
  lemma FirstIndexInRange(page: int32)
    requires -214748363 <= page as int <= 214748365
    ensures FirstIndex(page) as int == (page as int - 1) * PER_PAGE
    ensures FirstIndex(page) < 0 <==> page < 1
  {
  }


  /** The paging loop of `showHeroDiary` over the newest-first list: at most
      ten rows from `start`, and the last index visited. A negative `start`
      makes the first `list.get` throw. */
  method DiaryRows(list: seq<DiaryEntry>, start: int) returns (outOfBounds: bool, rows: seq<DiaryRow>, breakat: int)
    ensures outOfBounds <==> start < 0
    ensures !outOfBounds ==> rows == Window(list, start) && breakat == if rows == [] then 0 else start + |rows| - 1
  {
    var color := true;
    rows := [];
    var counter := 0;
    breakat := 0;
    var i := start;
    while i < |list|
      invariant counter == i - start && 0 <= counter < PER_PAGE
      invariant counter > 0 ==> i <= |list|
      invariant color == (counter % 2 == 0)
      invariant counter == 0 ==> breakat == 0
      invariant counter > 0 ==> start >= 0 && breakat == i - 1
      invariant |rows| == counter
      invariant forall k | 0 <= k < counter :: 0 <= start + k < |list| && rows[k] == DiaryRow(list[start + k], k % 2 == 0)
      decreases |list| - i
    {
      breakat := i;
      if i < 0 {
        return true, rows, breakat;
      }
      rows := rows + [DiaryRow(list[i], color)];
      color := !color;
      counter := counter + 1;
      if counter >= PER_PAGE {
        break;
      }
      i := i + 1;
    }
    outOfBounds := false;
    if start < 0 {
      // then 0 <= |list| <= start - 1 < 0
      assert false;
    }
    ghost var window := Window(list, start);
    assert |rows| == |window|;
    assert forall k | 0 <= k < |rows| :: rows[k] == window[k];
  }

  // ---- the hero table

  class Hero {
    var heroes: map<int, HeroRecord>
    var completeHeroes: map<int, HeroRecord>
    var heroDiary: map<int, seq<DiaryEntry>>
    var heroMessage: map<int, string>
    /** Writes issued to the hero tables, oldest first. */
    var writes: seq<HeroWrite>

    constructor ()
      ensures heroes == map[] && completeHeroes == map[] && heroDiary == map[] && heroMessage == map[]
      ensures writes == []
    {
      heroes := map[];
      completeHeroes := map[];
      heroDiary := map[];
      heroMessage := map[];
      writes := [];
    }

    /** Every current hero is recorded, with the same record, among all heroes. */
    ghost predicate Recorded()
      reads this
    {
      forall id | id in heroes :: id in completeHeroes && completeHeroes[id] == heroes[id]
    }

    /** `getHeroByClass`: a current hero of the class, or 0 when there is none. */
    method GetHeroByClass(classId: int) returns (charId: int)
      ensures (exists id | id in heroes :: heroes[id].classId == classId) ==>
        charId in heroes && heroes[charId].classId == classId
      ensures (forall id | id in heroes :: heroes[id].classId != classId) ==> charId == 0
    {
      var pending := heroes.Keys;
      while pending != {}
        invariant pending <= heroes.Keys
        invariant forall id | id in heroes && id !in pending :: heroes[id].classId != classId
        decreases |pending|
      {
        NonEmptyHasElement(pending);
        var id :| id in pending;
        if heroes[id].classId == classId {
          return id;
        }
        pending := pending - {id};
      }
      return 0;
    }

    /** `resetData`: forgets the diaries and messages, never the heroes. */
    method ResetData()
      modifies this`heroDiary, this`heroMessage
      ensures heroDiary == map[] && heroMessage == map[]
    {
      heroDiary := map[];
      heroMessage := map[];
    }

    /** `showHeroDiary`: the page of `charId`'s diary, newest entry first.
        `htmlAvailable` says whether the page template was found. */
    method ShowHeroDiary(heroClass: int, charId: int, page: int32, htmlAvailable: bool) returns (reply: DiaryReply)
      ensures reply == DiaryPage(if charId in heroDiary then Some(heroDiary[charId]) else None,
                                 if charId in heroMessage then Some(heroMessage[charId]) else None,
                                 htmlAvailable, heroClass, page)
    {
      if charId !in heroDiary || !htmlAvailable || charId !in heroMessage {
        return NoReply;
      }
      var mainList := heroDiary[charId];
      var message := heroMessage[charId];
      if mainList == [] {
        return Reply(message, [], None, None);
      }
      var list := Reversed(mainList);
      var outOfBounds, rows, breakat := DiaryRows(list, FirstIndex(page) as int);
      if outOfBounds {
        return IndexOutOfBounds;
      }
      var prev := if breakat < |list| - 1 then Some(DiaryButton(heroClass, Wrap32(page as int + 1))) else None;
      var next := if page > 1 then Some(DiaryButton(heroClass, Wrap32(page as int - 1))) else None;
      return Reply(message, rows, prev, next);
    }
    /** `updateHeroes`. With `setDefault`, marks every hero as not playing.
        Otherwise visits each current hero once: one not yet among all
        heroes is inserted, given its clan columns (from the clan/ally query
        `rows` and the clan table `clans`) and recorded among all heroes;
        one already there is updated. `order` is the visiting order, which
        the source leaves to the map. */
    method UpdateHeroes(setDefault: bool, rows: map<int, ClanAllyRow>, clans: map<int, Clan>)
      returns (ghost order: seq<int>)
      requires ClanTableCovers(rows, clans)
      modifies this`heroes, this`completeHeroes, this`writes
      ensures setDefault ==>
        && order == [] && writes == old(writes) + [ResetPlayed]
        && heroes == old(heroes) && completeHeroes == old(completeHeroes)
      ensures !setDefault ==>
        && Elements(order) == old(heroes).Keys && Distinct(order)
        && Promoted(old(heroes), old(completeHeroes), heroes, completeHeroes, rows, clans)
        && writes == old(writes) + WritesFor(order, old(heroes), old(completeHeroes))
    {
      if setDefault {
        writes := writes + [ResetPlayed];
        return [];
      }
      ghost var t0 := HeroTables(heroes, completeHeroes, writes);
      order := UpdateEach(rows, clans);
      PromoteAllPromotes(t0, order, rows, clans);
    }

    /** The loop of `updateHeroes(false)`, over the current heroes in the map's order. */
    method UpdateEach(rows: map<int, ClanAllyRow>, clans: map<int, Clan>) returns (ghost order: seq<int>)
      requires ClanTableCovers(rows, clans)
      modifies this`heroes, this`completeHeroes, this`writes
      ensures Elements(order) == old(heroes).Keys && Distinct(order)
      ensures forall k | 0 <= k < |order| :: order[k] in old(heroes)
      ensures HeroTables(heroes, completeHeroes, writes)
           == PromoteAll(HeroTables(old(heroes), old(completeHeroes), old(writes)), order, rows, clans)
    {
      var h, c, w := heroes, completeHeroes, writes;
      ghost var t0 := HeroTables(h, c, w);
      var pending := h.Keys;
      order := [];
      assert Elements(order) == {};
      while pending != {}
        invariant Visiting(t0, pending, order, HeroTables(h, c, w), rows, clans)
        decreases |pending|
      {
        NonEmptyHasElement(pending);
        var heroId :| heroId in pending;
        VisitingStep(t0, pending, order, HeroTables(h, c, w), heroId, rows, clans);
        var hero := h[heroId];
        if heroId !in c {
          w := w + [InsertHero(heroId, hero.classId, hero.count as int, hero.played, hero.claimed)];
          hero := WithClan(hero, heroId, rows, clans);
          h := h[heroId := hero];
          c := c[heroId := hero];
        } else {
          w := w + [UpdateHero(heroId, hero.count as int, hero.played, hero.claimed)];
        }
        pending := pending - {heroId};
        order := order + [heroId];
      }
      heroes, completeHeroes, writes := h, c, w;
    }

    /** `computeNewHeroes`, leaving out what it does to players in the world:
        marks all heroes not playing, deletes the hero items, and when the
        list is not empty makes its characters the current heroes and
        records the newcomers among all heroes. */
    method ComputeNewHeroes(newHeroes: seq<NewHero>, rows: map<int, ClanAllyRow>, clans: map<int, Clan>)
      returns (ghost order: seq<int>)
      requires ClanTableCovers(rows, clans)
      modifies this`heroes, this`completeHeroes, this`writes
      ensures Recorded()
      ensures newHeroes == [] ==>
        && heroes == map[] && completeHeroes == old(completeHeroes)
        && writes == old(writes) + [ResetPlayed, DeleteHeroItems]
      ensures newHeroes != [] ==>
        var rot := Rotation(old(completeHeroes), newHeroes);
        && Promoted(rot.0, rot.1, heroes, completeHeroes, rows, clans)
        && Elements(order) == rot.0.Keys && Distinct(order)
        && writes == old(writes) + [ResetPlayed, DeleteHeroItems] + WritesFor(order, rot.0, rot.1)
    {
      order := UpdateHeroes(true, rows, clans);
      writes := writes + [DeleteHeroItems];
      ghost var w1 := writes;
      assert w1 == old(writes) + [ResetPlayed, DeleteHeroItems];
      heroes := map[];
      if newHeroes == [] {
        return;
      }
      Rotate(newHeroes);
      ghost var h1, c1 := heroes, completeHeroes;
      ghost var rot := Rotation(old(completeHeroes), newHeroes);
      assert h1 == rot.0 && c1 == rot.1;
      RotationAgrees(old(completeHeroes), newHeroes);
      order := UpdateHeroes(false, rows, clans);
      assert writes == w1 + WritesFor(order, h1, c1);
      PromotionRecordsAll(h1, c1, heroes, completeHeroes, rows, clans);
    }

    /** The loop of `computeNewHeroes` over the list, once the current heroes are cleared. */
    method Rotate(newHeroes: seq<NewHero>)
      requires heroes == map[]
      modifies this`heroes, this`completeHeroes
      ensures (heroes, completeHeroes) == Rotation(old(completeHeroes), newHeroes)
    {
      var h: map<int, HeroRecord> := map[];
      var c := completeHeroes;
      for k := 0 to |newHeroes|
        invariant (h, c) == Rotation(old(completeHeroes), newHeroes[..k])
      {
        assert newHeroes[..k + 1][..k] == newHeroes[..k];
        var hero := newHeroes[k];
        var charId := hero.charId;
        if charId in c {
          var oldHero := c[charId];
          var updated := oldHero.(count := Wrap32(oldHero.count as int + 1), played := 1, claimed := false);
          c := c[charId := updated];
          h := h[charId := updated];
        } else {
          var newHero := HeroRecord(hero.name, hero.classId, 1, 1, false, None);
          h := h[charId := newHero];
        }
      }
      assert newHeroes[..|newHeroes|] == newHeroes;
      heroes, completeHeroes := h, c;
    }

    /** `setRBkilled`: logs the diary insert, then appends one entry to the
        hero's in-memory diary when it has one and the NPC template exists
        (`npcName` is the template's name, `now` the clock, `date` its
        formatted hour). */
    method SetRBkilled(charId: int, npcId: int, npcName: Option<string>, now: int, date: string)
      modifies this`heroDiary, this`writes
      ensures writes == old(writes) + [DiaryInsert(charId, now, ACTION_RAID_KILLED, npcId)]
      ensures charId in old(heroDiary) && npcName.Some? ==>
        heroDiary == old(heroDiary)[charId := old(heroDiary)[charId] + [DiaryEntry(date, npcName.value + " was defeated")]]
      ensures !(charId in old(heroDiary) && npcName.Some?) ==> heroDiary == old(heroDiary)
    {
      SetDiaryData(charId, ACTION_RAID_KILLED, npcId, now);
      if charId !in heroDiary || npcName.None? {
        return;
      }
      heroDiary := heroDiary[charId := heroDiary[charId] + [DiaryEntry(date, npcName.value + " was defeated")]];
    }

    /** `setCastleTaken`: as `setRBkilled`, for a castle (`castleName` is
        the castle's name when the castle exists). */
    method SetCastleTaken(charId: int, castleId: int, castleName: Option<string>, now: int, date: string)
      modifies this`heroDiary, this`writes
      ensures writes == old(writes) + [DiaryInsert(charId, now, ACTION_CASTLE_TAKEN, castleId)]
      ensures charId in old(heroDiary) && castleName.Some? ==>
        heroDiary == old(heroDiary)[charId := old(heroDiary)[charId]
                                     + [DiaryEntry(date, castleName.value + " Castle was successfuly taken")]]
      ensures !(charId in old(heroDiary) && castleName.Some?) ==> heroDiary == old(heroDiary)
    {
      SetDiaryData(charId, ACTION_CASTLE_TAKEN, castleId, now);
      if charId !in heroDiary || castleName.None? {
        return;
      }
      heroDiary := heroDiary[charId := heroDiary[charId] + [DiaryEntry(date, castleName.value + " Castle was successfuly taken")]];
    }

    method SetDiaryData(charId: int, action: int, param: int, now: int)
      modifies this`writes
      ensures writes == old(writes) + [DiaryInsert(charId, now, action, param)]
    {
      writes := writes + [DiaryInsert(charId, now, action, param)];
    }

    /** `setHeroMessage`. */
    method SetHeroMessage(objectId: int, message: string)
      modifies this`heroMessage
      ensures heroMessage == old(heroMessage)[objectId := message]
    {
      heroMessage := heroMessage[objectId := message];
    }

    /** `saveHeroMessage` as the source writes it: it returns early exactly
        when there is a message, so the only write it can issue stores no
        message. */
    method SaveHeroMessageAsWritten(charId: int)
      modifies this`writes
      ensures charId in heroMessage ==> writes == old(writes)
      ensures charId !in heroMessage ==> writes == old(writes) + [MessageWrite(charId, None)]
    {
      if charId in heroMessage {
        return;
      }
      writes := writes + [MessageWrite(charId, None)];
    }

    /** `shutdown` as the source writes it: it visits only characters that
        have a message, so it never writes anything. */
    method ShutdownAsWritten()
      modifies this`writes
      ensures writes == old(writes)
    {
      var pending := heroMessage.Keys;
      while pending != {}
        invariant pending <= heroMessage.Keys
        invariant writes == old(writes)
        decreases |pending|
      {
        NonEmptyHasElement(pending);
        var charId :| charId in pending;
        SaveHeroMessageAsWritten(charId);
        pending := pending - {charId};
      }
    }

    /** `saveHeroMessage` with the guard the save evidently means: nothing to
        save without a message, otherwise one write of that message. */
    method SaveHeroMessage(charId: int)
      modifies this`writes
      ensures charId !in heroMessage ==> writes == old(writes)
      ensures charId in heroMessage ==> writes == old(writes) + [MessageWrite(charId, Some(heroMessage[charId]))]
    {
      if charId !in heroMessage {
        return;
      }
      writes := writes + [MessageWrite(charId, Some(heroMessage[charId]))];
    }

    /** `shutdown` with the corrected save: one write per message, each
        carrying that character's message. */
    method Shutdown() returns (ghost order: seq<int>)
      modifies this`writes
      ensures |order| == |heroMessage| && (forall k | 0 <= k < |order| :: order[k] in heroMessage)
      ensures Distinct(order)
      ensures writes == old(writes) + MessageWrites(order, heroMessage)
    {
      order := [];
      var pending := heroMessage.Keys;
      while pending != {}
        invariant pending <= heroMessage.Keys
        invariant forall k | 0 <= k < |order| :: order[k] in heroMessage && order[k] !in pending
        invariant Distinct(order)
        invariant |order| + |pending| == |heroMessage.Keys|
        invariant writes == old(writes) + MessageWrites(order, heroMessage)
        decreases |pending|
      {
        NonEmptyHasElement(pending);
        var charId :| charId in pending;
        SaveHeroMessage(charId);
        assert (order + [charId])[..|order|] == order;
        pending := pending - {charId};
        order := order + [charId];
      }
    }
  }

  /** The message writes for the characters of `order`, in that order. */
  function MessageWrites(order: seq<int>, messages: map<int, string>): (w: seq<HeroWrite>)
    requires forall k | 0 <= k < |order| :: order[k] in messages
    ensures |w| == |order|
    ensures forall k | 0 <= k < |order| :: w[k] == MessageWrite(order[k], Some(messages[order[k]]))
  {
    if order == [] then []
    else MessageWrites(order[..|order| - 1], messages) + [MessageWrite(order[|order| - 1], Some(messages[order[|order| - 1]]))]
  }

  /** A hero that set a message before shutdown: the source's shutdown
      issues no write for it, the corrected one writes that message. */
  method ShutdownLosesMessage() returns (asWritten: seq<HeroWrite>, corrected: seq<HeroWrite>)
    ensures asWritten == [] && corrected == [MessageWrite(7, Some("glory"))]
  {
    var h := new Hero();
    h.SetHeroMessage(7, "glory");
    h.ShutdownAsWritten();
    asWritten := h.writes;
    var order := h.Shutdown();
    assert order == [7];
    corrected := h.writes;
  }
}
