/** The statistics record of `src/stats.rs` and its decoder from the game's
    memory (`Stats::from_memory`, `Stats::update_from_memory`).

    Every counter is kept as the raw little-endian 64-bit word the decoder
    reads (`read_f64::<LE>` only reinterprets those bits as a float). The
    record is a plain value, so the `&mut self` update is modelled as a method
    that takes the old record and returns the updated one. */
module SpelunkyStats {
  import opened Bytes
  import opened Wrappers
  import opened Win32
  import opened IoCursor
  import opened MemReader

  /** Number of counters in a `Stats` record. */
  const FIELD_COUNT: nat := 89
  /** The 14 scalar counters come first, then the four categories. */
  const SCALAR_COUNT: nat := 14
  const LEVEL_DEATHS_BASE: nat := 14
  const ENEMY_DEATHS_BASE: nat := 30
  const MISC_DEATHS_BASE: nat := 54
  const ENEMY_KILLS_BASE: nat := 66
  /** Index of `enemy_kills.monkey` among the 89 counters. */
  const MONKEY_FIELD: nat := 75

  /** Deaths per level, levels 1 to 16. (`LevelDeaths`) */
  datatype LevelDeaths = LevelDeaths(
    level1: u64, level2: u64, level3: u64, level4: u64, level5: u64, level6: u64, level7: u64,
    level8: u64, level9: u64, level10: u64, level11: u64, level12: u64, level13: u64,
    level14: u64, level15: u64, level16: u64)
  {
    /** The counters in declaration order. */
    function Values(): (v: seq<u64>)
      ensures |v| == 16
    {
      [
      level1, level2, level3, level4, level5, level6, level7, level8, level9, level10, level11,
      level12, level13, level14, level15, level16
      ]
    }
  }

  /** Deaths per enemy kind; `theGhost` is the source's `ghost`, a keyword here. (`EnemyDeaths`) */
  datatype EnemyDeaths = EnemyDeaths(
    bat: u64, snake: u64, spider: u64, giantSpider: u64, caveman: u64, skeleton: u64,
    zombie: u64, vampire: u64, frog: u64, fireFrog: u64, mantrap: u64, piranha: u64,
    megamouth: u64, yeti: u64, yetiKing: u64, alien: u64, ufo: u64, alienBoss: u64,
    hawkman: u64, shopkeeper: u64, tombLord: u64, magmaMan: u64, olmec: u64, theGhost: u64)
  {
    /** The counters in declaration order. */
    function Values(): (v: seq<u64>)
      ensures |v| == 24
    {
      [
      bat, snake, spider, giantSpider, caveman, skeleton, zombie, vampire, frog, fireFrog,
      mantrap, piranha, megamouth, yeti, yetiKing, alien, ufo, alienBoss, hawkman, shopkeeper,
      tombLord, magmaMan, olmec, theGhost
      ]
    }
  }

  /** Deaths by environmental cause. (`MiscDeaths`) */
  datatype MiscDeaths = MiscDeaths(
    rock: u64, explosion: u64, crushed: u64, longFall: u64, spikes: u64, boulder: u64,
    arrowTrap: u64, spearTrap: u64, smashTrap: u64, ceilingTrap: u64, pit: u64, lava: u64)
  {
    /** The counters in declaration order. */
    function Values(): (v: seq<u64>)
      ensures |v| == 12
    {
      [
      rock, explosion, crushed, longFall, spikes, boulder, arrowTrap, spearTrap, smashTrap,
      ceilingTrap, pit, lava
      ]
    }
  }

  /** Kills per enemy kind. (`EnemyKills`) */
  datatype EnemyKills = EnemyKills(
    bat: u64, snake: u64, spider: u64, giantSpider: u64, caveman: u64, skeleton: u64,
    zombie: u64, vampire: u64, frog: u64, monkey: u64, fireFrog: u64, mantrap: u64,
    piranha: u64, megamouth: u64, yeti: u64, yetiKing: u64, alien: u64, ufo: u64,
    alienBoss: u64, hawkman: u64, shopkeeper: u64, tombLord: u64, olmec: u64)
  {
    /** The counters in declaration order. */
    function Values(): (v: seq<u64>)
      ensures |v| == 23
    {
      [
      bat, snake, spider, giantSpider, caveman, skeleton, zombie, vampire, frog, monkey,
      fireFrog, mantrap, piranha, megamouth, yeti, yetiKing, alien, ufo, alienBoss, hawkman,
      shopkeeper, tombLord, olmec
      ]
    }
  }

  /** The whole statistics record, `Stats`: 14 scalar counters and the four categories. */
  datatype Stats = Stats(
    cratesOpened: u64, chestsOpened: u64, idolsGrabbed: u64, idolsConverted: u64,
    damselsGrabbed: u64, kissesBought: u64, damselsBought: u64, damselsSaved: u64,
    damselsKilled: u64, itemsBought: u64, itemsStolen: u64, diceGamesPlayed: u64,
    diceGamesWon: u64, diceGamesLost: u64, levelDeaths: LevelDeaths, enemyDeaths: EnemyDeaths,
    miscDeaths: MiscDeaths, enemyKills: EnemyKills)
  {
    /** All 89 counters in declaration order: the scalars, then the level deaths,
        enemy deaths, misc deaths and enemy kills. */
    function Counters(): (c: seq<u64>)
      ensures |c| == FIELD_COUNT
      ensures c[..SCALAR_COUNT] == [
      cratesOpened, chestsOpened, idolsGrabbed, idolsConverted, damselsGrabbed, kissesBought,
      damselsBought, damselsSaved, damselsKilled, itemsBought, itemsStolen, diceGamesPlayed,
      diceGamesWon, diceGamesLost
      ]
      ensures c[LEVEL_DEATHS_BASE..ENEMY_DEATHS_BASE] == levelDeaths.Values()
      ensures c[ENEMY_DEATHS_BASE..MISC_DEATHS_BASE] == enemyDeaths.Values()
      ensures c[MISC_DEATHS_BASE..ENEMY_KILLS_BASE] == miscDeaths.Values()
      ensures c[ENEMY_KILLS_BASE..] == enemyKills.Values()
    {
      [
      cratesOpened, chestsOpened, idolsGrabbed, idolsConverted, damselsGrabbed, kissesBought,
      damselsBought, damselsSaved, damselsKilled, itemsBought, itemsStolen, diceGamesPlayed,
      diceGamesWon, diceGamesLost
      ]
      + levelDeaths.Values() + enemyDeaths.Values() + miscDeaths.Values() + enemyKills.Values()
    }

    /** The record holding the given 89 counters in declaration order (see
        `CountersRoundTrip`). */
    static function FromCounters(c: seq<u64>): Stats
      requires |c| == FIELD_COUNT
    {
      Stats(
        c[0], c[1], c[2], c[3], c[4], c[5], c[6], c[7], c[8], c[9], c[10], c[11], c[12], c[13],
        LevelDeaths(
          c[14], c[15], c[16], c[17], c[18], c[19], c[20], c[21], c[22], c[23], c[24], c[25],
          c[26], c[27], c[28], c[29]),
        EnemyDeaths(
          c[30], c[31], c[32], c[33], c[34], c[35], c[36], c[37], c[38], c[39], c[40], c[41],
          c[42], c[43], c[44], c[45], c[46], c[47], c[48], c[49], c[50], c[51], c[52], c[53]),
        MiscDeaths(
          c[54], c[55], c[56], c[57], c[58], c[59], c[60], c[61], c[62], c[63], c[64], c[65]),
        EnemyKills(
          c[66], c[67], c[68], c[69], c[70], c[71], c[72], c[73], c[74], c[75], c[76], c[77],
          c[78], c[79], c[80], c[81], c[82], c[83], c[84], c[85], c[86], c[87], c[88]))
    }
  }

  /** `FromCounters` inverts `Counters`: the record built from 89 counters
      lists them back in the same order. */
  lemma CountersRoundTrip(c: seq<u64>)
    requires |c| == FIELD_COUNT
    ensures Stats.FromCounters(c).Counters() == c
  {
    var s := Stats.FromCounters(c);
    assert s.levelDeaths.Values() == c[LEVEL_DEATHS_BASE..ENEMY_DEATHS_BASE];
    assert s.enemyDeaths.Values() == c[ENEMY_DEATHS_BASE..MISC_DEATHS_BASE];
    assert s.miscDeaths.Values() == c[MISC_DEATHS_BASE..ENEMY_KILLS_BASE];
    assert s.enemyKills.Values() == c[ENEMY_KILLS_BASE..];
    CountersEqual(s.Counters(), c);
  }

  /** `Counters` inverts `FromCounters`: a record is rebuilt from its counters. */
  lemma RecordRoundTrip(s: Stats)
    ensures Stats.FromCounters(s.Counters()) == s
  {
  }

  /** Two counter sequences that agree on the scalars and on each category are equal. */
  lemma CountersEqual(a: seq<u64>, b: seq<u64>)
    requires |a| == FIELD_COUNT && |b| == FIELD_COUNT
    requires a[..SCALAR_COUNT] == b[..SCALAR_COUNT]
    requires a[LEVEL_DEATHS_BASE..ENEMY_DEATHS_BASE] == b[LEVEL_DEATHS_BASE..ENEMY_DEATHS_BASE]
    requires a[ENEMY_DEATHS_BASE..MISC_DEATHS_BASE] == b[ENEMY_DEATHS_BASE..MISC_DEATHS_BASE]
    requires a[MISC_DEATHS_BASE..ENEMY_KILLS_BASE] == b[MISC_DEATHS_BASE..ENEMY_KILLS_BASE]
    requires a[ENEMY_KILLS_BASE..] == b[ENEMY_KILLS_BASE..]
    ensures a == b
  {
    forall i | 0 <= i < FIELD_COUNT
      ensures a[i] == b[i]
    {
      if i < SCALAR_COUNT {
        assert a[i] == a[..SCALAR_COUNT][i];
      } else if i < ENEMY_DEATHS_BASE {
        assert a[i] == a[LEVEL_DEATHS_BASE..ENEMY_DEATHS_BASE][i - LEVEL_DEATHS_BASE];
      } else if i < MISC_DEATHS_BASE {
        assert a[i] == a[ENEMY_DEATHS_BASE..MISC_DEATHS_BASE][i - ENEMY_DEATHS_BASE];
      } else if i < ENEMY_KILLS_BASE {
        assert a[i] == a[MISC_DEATHS_BASE..ENEMY_KILLS_BASE][i - MISC_DEATHS_BASE];
      } else {
        assert a[i] == a[ENEMY_KILLS_BASE..][i - ENEMY_KILLS_BASE];
      }
    }
  }

  /** `Stats::default()`, derived: every counter is `0.0`, whose bit pattern is 0. */
  const DEFAULT: Stats := Stats(
    0, 0, 0, 0, 0, 0, 0, 0, 0, 0, 0, 0, 0, 0,
    LevelDeaths(0, 0, 0, 0, 0, 0, 0, 0, 0, 0, 0, 0, 0, 0, 0, 0),
    EnemyDeaths(0, 0, 0, 0, 0, 0, 0, 0, 0, 0, 0, 0, 0, 0, 0, 0, 0, 0, 0, 0, 0, 0, 0, 0),
    MiscDeaths(0, 0, 0, 0, 0, 0, 0, 0, 0, 0, 0, 0),
    EnemyKills(0, 0, 0, 0, 0, 0, 0, 0, 0, 0, 0, 0, 0, 0, 0, 0, 0, 0, 0, 0, 0, 0, 0))

  /** Every counter of the default record is zero. */
  lemma DefaultIsZero()
    ensures forall i :: 0 <= i < FIELD_COUNT ==> DEFAULT.Counters()[i] == 0
  {
    var zeros: seq<u64> := seq(FIELD_COUNT, _ => 0);
    assert DEFAULT == Stats.FromCounters(zeros);
    CountersRoundTrip(zeros);
  }

  // ---------------------------------------------------------------------------
  // Equality as the derived `PartialEq` computes it on `f64` fields

  /** Bits of an IEEE 754 binary64 value: 52 fraction bits, 11 exponent bits, the sign. */
  const FRACTION_SPAN: nat := 0x10_0000_0000_0000
  const EXPONENT_SPAN: nat := 0x800
  const SIGN_SPAN: nat := 0x8000_0000_0000_0000
  /** The bits of positive infinity: every exponent bit set, the fraction clear. */
  const INFINITY_BITS: nat := 0x7ff0_0000_0000_0000

  /** A NaN: below the sign, the bits exceed those of infinity. */
  predicate IsNaN(bits: u64) {
    bits % SIGN_SPAN > INFINITY_BITS
  }

  /** `IsNaN` is the IEEE 754 definition: the exponent bits are all set and
      the fraction is not zero. */
  lemma IsNaNFields(bits: u64)
    ensures IsNaN(bits) <==>
      (bits / FRACTION_SPAN) % EXPONENT_SPAN == EXPONENT_SPAN - 1 && bits % FRACTION_SPAN != 0
  {
    var magnitude := bits % SIGN_SPAN;
    var exponent := (bits / FRACTION_SPAN) % EXPONENT_SPAN;
    var fraction := bits % FRACTION_SPAN;
    assert magnitude == exponent * FRACTION_SPAN + fraction;
  }

  /** `0.0` or `-0.0`: every bit but the sign is clear. */
  predicate IsZero(bits: u64) {
    bits % SIGN_SPAN == 0
  }

  /** `f64 == f64` on two bit patterns: a NaN equals nothing, the two zeros are
      equal, and otherwise equal values have equal bits. */
  predicate F64Eq(a: u64, b: u64)
    ensures IsNaN(a) || IsNaN(b) ==> !F64Eq(a, b)
    ensures IsZero(a) && IsZero(b) ==> F64Eq(a, b)
    ensures F64Eq(a, b) && !IsZero(a) ==> a == b
  {
    !IsNaN(a) && !IsNaN(b) && (a == b || (IsZero(a) && IsZero(b)))
  }

  /** A value equals itself exactly when it is not a NaN (the quiet NaN
      `0x7ff8_0000_0000_0000` does not); the two zeros are equal. */
  lemma F64EqReflexive(a: u64)
    ensures F64Eq(a, a) <==> !IsNaN(a)
    ensures IsNaN(0x7ff8_0000_0000_0000) && F64Eq(0, SIGN_SPAN)
  {
  }

  /** On patterns that are not NaN, `F64Eq` is an equivalence. */
  lemma F64EqEquivalence(a: u64, b: u64, c: u64)
    ensures F64Eq(a, b) ==> F64Eq(b, a)
    ensures F64Eq(a, b) && F64Eq(b, c) ==> F64Eq(a, c)
  {
  }

  /** Some counter of the record is a NaN. */
  predicate HasNaN(s: Stats) {
    exists i :: 0 <= i < FIELD_COUNT && IsNaN(s.Counters()[i])
  }

  /** Counter by counter `f64` equality, compared from the first counter on as
      the derived `PartialEq` does. */
  predicate CountersEq(a: seq<u64>, b: seq<u64>, i: nat)
    requires |a| == |b|
    decreases |a| - i
  {
    i >= |a| || (F64Eq(a[i], b[i]) && CountersEq(a, b, i + 1))
  }

  /** `CountersEq` holds exactly when every pair of counters from `i` on is
      equal as `f64`. */
  lemma {:induction false} CountersEqEvery(a: seq<u64>, b: seq<u64>, i: nat)
    requires |a| == |b|
    ensures CountersEq(a, b, i) <==> forall j :: i <= j < |a| ==> F64Eq(a[j], b[j])
    decreases |a| - i
  {
    if i < |a| {
      CountersEqEvery(a, b, i + 1);
    }
  }

  /** The derived `PartialEq` on `Stats`: every counter equal as an `f64`. */
  predicate StatsEq(s: Stats, t: Stats)
    ensures StatsEq(s, t) <==> forall i :: 0 <= i < FIELD_COUNT ==> F64Eq(s.Counters()[i], t.Counters()[i])
  {
    CountersEqEvery(s.Counters(), t.Counters(), 0);
    CountersEq(s.Counters(), t.Counters(), 0)
  }

  /** A record holding a NaN equals no record, itself included; a record without
      one equals itself, and so does every record with the same bits. */
  lemma StatsEqNaN(s: Stats, t: Stats)
    ensures HasNaN(s) ==> !StatsEq(s, t) && !StatsEq(t, s)
    ensures !HasNaN(s) && s == t ==> StatsEq(s, t)
  {
    CountersEqEvery(s.Counters(), t.Counters(), 0);
    CountersEqEvery(t.Counters(), s.Counters(), 0);
    if HasNaN(s) {
      var i :| 0 <= i < FIELD_COUNT && IsNaN(s.Counters()[i]);
      assert !F64Eq(s.Counters()[i], t.Counters()[i]);
      assert !F64Eq(t.Counters()[i], s.Counters()[i]);
    }
  }

  // ---------------------------------------------------------------------------
  // Where each counter lives in the game's memory

  /** Offset from the module base of the first link of the pointer chain. */
  const ENTRY_OFFSET: nat := 0x18f124
  /** The second link is read 4 bytes past the address the first one yields. */
  const CHAIN_OFFSET: nat := 0x4
  /** The statistics block starts this far past the second link's value. */
  const BLOCK_DISPLACEMENT: nat := 0xd58
  /** Bytes requested for the statistics block. */
  const BLOCK_SIZE: nat := 0x2d8
  /** Every counter is one 8-byte word. */
  const WORD: nat := 8
  /** Distance between consecutive counters of the block: a word, then a 0x20 skip. */
  const PRIMARY_SKIP: nat := 0x20
  const PRIMARY_STRIDE: nat := 0x28
  /** `enemy_kills.monkey` is the block's last word, not an entry of the kills list. */
  const MONKEY_OFFSET: nat := 0x2d0
  /** The list pointer of a category sits this far past the cursor after its head word. */
  const LIST_POINTER_OFFSET: nat := 0x8
  /** A category's values start this far past the address its list pointer yields. */
  const LIST_HEADER: nat := 0x20
  /** Distance between consecutive list values: a word, then a 0x10 skip. */
  const LIST_SKIP: nat := 0x10
  const LIST_STRIDE: nat := 0x18

  /** The four categories, each stored as a head word in the block followed by a
      list elsewhere in memory. */
  datatype Category = LevelDeathsList | EnemyDeathsList | MiscDeathsList | EnemyKillsList

  /** Number of categories. */
  const CATEGORY_COUNT: nat := 4

  /** Offset within the block of the category's first counter. */
  function HeadOffset(c: Category): (r: nat)
    ensures r + PRIMARY_STRIDE < BLOCK_SIZE
  {
    match c
    case LevelDeathsList => 0x230
    case EnemyDeathsList => 0x258
    case MiscDeathsList => 0x280
    case EnemyKillsList => 0x2a8
  }

  /** Number of counters the category reads from its list. */
  function ListCount(c: Category): (r: nat)
    ensures r > 0
  {
    match c
    case LevelDeathsList => 15
    case EnemyDeathsList => 23
    case MiscDeathsList => 11
    case EnemyKillsList => 21
  }

  /** Bytes requested for the category's list: exactly enough for its last
      value, so no list read runs past the end of a fully read list. */
  function ListLength(c: Category): (r: nat)
    ensures r == LIST_STRIDE * (ListCount(c) - 1) + WORD
  {
    match c
    case LevelDeathsList => 0x158
    case EnemyDeathsList => 0x218
    case MiscDeathsList => 0xf8
    case EnemyKillsList => 0x1e8
  }

  /** Where a counter is stored: at an offset of the block, or as the
      `index`-th value of a category's list. */
  datatype Slot = Primary(offset: nat) | Listed(list: Category, index: nat)

  /** The storage slot of each of the 89 counters, in declaration order. */
  function SlotOf(f: nat): (s: Slot)
    requires f < FIELD_COUNT
    ensures s.Primary? ==> s.offset + WORD <= BLOCK_SIZE
    ensures s.Listed? ==> s.index < ListCount(s.list)
  {
    if f < SCALAR_COUNT then Primary(PRIMARY_STRIDE * f)
    else if f == LEVEL_DEATHS_BASE then Primary(HeadOffset(LevelDeathsList))
    else if f < ENEMY_DEATHS_BASE then Listed(LevelDeathsList, f - LEVEL_DEATHS_BASE - 1)
    else if f == ENEMY_DEATHS_BASE then Primary(HeadOffset(EnemyDeathsList))
    else if f < MISC_DEATHS_BASE then Listed(EnemyDeathsList, f - ENEMY_DEATHS_BASE - 1)
    else if f == MISC_DEATHS_BASE then Primary(HeadOffset(MiscDeathsList))
    else if f < ENEMY_KILLS_BASE then Listed(MiscDeathsList, f - MISC_DEATHS_BASE - 1)
    else if f == ENEMY_KILLS_BASE then Primary(HeadOffset(EnemyKillsList))
    else if f < MONKEY_FIELD then Listed(EnemyKillsList, f - ENEMY_KILLS_BASE - 1)
    else if f == MONKEY_FIELD then Primary(MONKEY_OFFSET)
    else Listed(EnemyKillsList, f - ENEMY_KILLS_BASE - 2)
  }

  /** The position of each counter in the order the decoder assigns them: the
      declaration order, except that `enemy_kills.monkey` is assigned last. */
  function StepOf(f: nat): (j: nat)
    requires f < FIELD_COUNT
    ensures j < FIELD_COUNT
  {
    if f < MONKEY_FIELD then f else if f == MONKEY_FIELD then FIELD_COUNT - 1 else f - 1
  }

  /** The counter assigned at step `j`. */
  function WriteOrder(j: nat): (f: nat)
    requires j < FIELD_COUNT
    ensures f < FIELD_COUNT && StepOf(f) == j
  {
    if j < MONKEY_FIELD then j else if j < FIELD_COUNT - 1 then j + 1 else MONKEY_FIELD
  }

  /** `StepOf` and `WriteOrder` are inverse: every counter is assigned exactly once. */
  lemma WriteOrderInverse(f: nat)
    requires f < FIELD_COUNT
    ensures WriteOrder(StepOf(f)) == f
  {
  }

  /** The head counter of a category. */
  function HeadField(c: Category): (f: nat)
    ensures f < FIELD_COUNT && SlotOf(f) == Primary(HeadOffset(c)) && StepOf(f) == f
  {
    match c
    case LevelDeathsList => LEVEL_DEATHS_BASE
    case EnemyDeathsList => ENEMY_DEATHS_BASE
    case MiscDeathsList => MISC_DEATHS_BASE
    case EnemyKillsList => ENEMY_KILLS_BASE
  }

  /** The number of counters assigned once the category is complete. */
  function CategoryEnd(c: Category): nat {
    HeadField(c) + 1 + ListCount(c)
  }

  /** The `n`-th category the decoder reads: each one's head word follows the
      previous one's in the block, and its counters follow the previous one's
      in declaration order. */
  function CategoryAt(n: nat): Category
    requires n < CATEGORY_COUNT
  {
    match n
    case 0 => LevelDeathsList
    case 1 => EnemyDeathsList
    case 2 => MiscDeathsList
    case _ => EnemyKillsList
  }

  /** The categories follow one another: each head word follows the previous
      one's in the block, and each category's counters follow the previous
      one's in declaration order, the last ending where the monkey kills are
      assigned. */
  lemma CategoryOrder(n: nat)
    requires n < CATEGORY_COUNT
    ensures HeadOffset(CategoryAt(n)) == PRIMARY_STRIDE * (SCALAR_COUNT + n)
    ensures HeadField(CategoryAt(n)) == if n == 0 then SCALAR_COUNT else CategoryEnd(CategoryAt(n - 1))
    ensures n == CATEGORY_COUNT - 1 ==> CategoryEnd(CategoryAt(n)) == StepOf(MONKEY_FIELD)
  {
  }

  /** The counter read as the `k`-th value of a category's list; it is assigned
      right after the head and the list's earlier values. */
  function ListField(c: Category, k: nat): (f: nat)
    requires k < ListCount(c)
    ensures f < FIELD_COUNT && SlotOf(f) == Listed(c, k)
    ensures StepOf(f) == HeadField(c) + 1 + k
  {
    if c == EnemyKillsList && MONKEY_FIELD <= HeadField(c) + 1 + k
    then HeadField(c) + 2 + k
    else HeadField(c) + 1 + k
  }

  /** Address of the statistics block: two 32-bit pointers are followed from
      the module base. */
  function BlockAddress(mem: Memory, base: nat): nat {
    PointerAt(mem, PointerAt(mem, base + ENTRY_OFFSET) + CHAIN_OFFSET) + BLOCK_DISPLACEMENT
  }

  /** The address from which a category's list pointer is read: it lies inside
      the block, but is read from process memory again. */
  function ListPointerSlot(block: nat, c: Category): nat {
    block + HeadOffset(c) + WORD + LIST_POINTER_OFFSET
  }

  /** Address of the first list value reached through the list pointer at `slot`. */
  function ListStart(mem: Memory, slot: nat): nat {
    PointerAt(mem, PointerAt(mem, slot)) + LIST_HEADER
  }

  /** Address of the first value of a category's list. */
  function ListAddress(mem: Memory, block: nat, c: Category): nat {
    ListStart(mem, ListPointerSlot(block, c))
  }

  /** Address of the word a slot designates. */
  function SlotAddress(mem: Memory, block: nat, s: Slot): nat {
    match s
    case Primary(offset) => block + offset
    case Listed(c, k) => ListAddress(mem, block, c) + LIST_STRIDE * k
  }

  /** Address of the word holding counter `f`. */
  function FieldAddress(mem: Memory, base: nat, f: nat): nat
    requires f < FIELD_COUNT
  {
    SlotAddress(mem, BlockAddress(mem, base), SlotOf(f))
  }

  /** The little-endian word stored at `addr` in process memory. */
  ghost function WordAt(mem: Memory, addr: nat): u64
    requires Readable(mem, addr, WORD)
  {
    ReadableEvery(mem, addr, WORD);
    LeU64(seq(WORD, i requires 0 <= i < WORD => mem[addr + i]))
  }

  /** The bytes `read_n_bytes` returns for the block. */
  function BlockBytes(mem: Memory, block: nat): seq<u8> {
    Fetch(mem, block, BLOCK_SIZE)
  }

  /** The bytes `read_n_bytes` returns for a category's list. */
  function ListBytes(mem: Memory, block: nat, c: Category): seq<u8> {
    Fetch(mem, ListAddress(mem, block, c), ListLength(c))
  }

  /** The little-endian word at offset `p` of a buffer (0 past its end). */
  function WordIn(data: seq<u8>, p: nat): u64 {
    if p + 8 <= |data| then LeU64(data[p..p + 8]) else 0
  }

  /** The word the layout designates for counter `f`: taken from the block or
      from its category's list at the offset its slot gives. */
  function LayoutWord(mem: Memory, base: nat, f: nat): u64
    requires f < FIELD_COUNT
  {
    SlotWord(mem, BlockAddress(mem, base), SlotOf(f))
  }

  /** The word a slot designates in the buffers the decoder reads. */
  function SlotWord(mem: Memory, block: nat, s: Slot): u64 {
    match s
    case Primary(offset) => WordIn(BlockBytes(mem, block), offset)
    case Listed(c, k) => WordIn(ListBytes(mem, block, c), LIST_STRIDE * k)
  }

  /** The words `g(f)`, `g(f + 1)`, ..., `g(n - 1)`. */
  function Tabulate(g: nat -> u64, f: nat, n: nat): (w: seq<u64>)
    requires f <= n
    ensures |w| == n - f
    decreases n - f
  {
    if f == n then [] else [g(f)] + Tabulate(g, f + 1, n)
  }

  lemma {:induction false} TabulateAt(g: nat -> u64, f: nat, n: nat, i: nat)
    requires f <= n && i < n - f
    ensures Tabulate(g, f, n)[i] == g(f + i)
    decreases i
  {
    if i > 0 {
      TabulateAt(g, f + 1, n, i - 1);
    }
  }

  /** The 89 words the layout designates, in declaration order. */
  function LayoutCounters(mem: Memory, base: nat): (c: seq<u64>)
    ensures |c| == FIELD_COUNT
  {
    Tabulate((f: nat) => if f < FIELD_COUNT then LayoutWord(mem, base, f) else 0, 0, FIELD_COUNT)
  }

  /** Counter `f` of the layout is the word its slot designates. */
  lemma LayoutCountersAt(mem: Memory, base: nat, f: nat)
    requires f < FIELD_COUNT
    ensures LayoutCounters(mem, base)[f] == LayoutWord(mem, base, f)
  {
    TabulateAt((f: nat) => if f < FIELD_COUNT then LayoutWord(mem, base, f) else 0, 0, FIELD_COUNT, f);
  }

  /** The record the layout designates. */
  function Layout(mem: Memory, base: nat): Stats {
    Stats.FromCounters(LayoutCounters(mem, base))
  }

  /** Every read of a category's list succeeds in full: both pointer reads
      find their first byte, and the whole list is readable. */
  ghost predicate ListReadable(mem: Memory, slot: nat, c: Category) {
    && slot in mem
    && PointerAt(mem, slot) in mem
    && Readable(mem, ListStart(mem, slot), ListLength(c))
  }

  /** Every read the decoder performs succeeds: the pointer reads need their
      first byte, the block and the lists all their bytes. */
  ghost predicate LayoutReadable(mem: Memory, base: nat) {
    var block := BlockAddress(mem, base);
    && base + ENTRY_OFFSET in mem
    && PointerAt(mem, base + ENTRY_OFFSET) + CHAIN_OFFSET in mem
    && Readable(mem, block, BLOCK_SIZE)
    && forall n :: 0 <= n < CATEGORY_COUNT ==> ListReadable(mem, ListPointerSlot(block, CategoryAt(n)), CategoryAt(n))
  }

  /** `from_memory` as a value: the designated record exactly when every read succeeds. */
  ghost function Decoded(mem: Memory, base: nat): Option<Stats> {
    if LayoutReadable(mem, base) then Some(Layout(mem, base)) else None
  }

  // ---------------------------------------------------------------------------
  // The layout, counter by counter

  /** The scalar counters are the words at a stride of 0x28 in the block buffer. */
  ghost predicate ScalarsDesignated(data: seq<u8>, target: seq<u64>)
    requires |target| == FIELD_COUNT
  {
    forall i :: 0 <= i < SCALAR_COUNT ==> target[i] == WordIn(data, PRIMARY_STRIDE * i)
  }

  /** The counters of a list are the words at a stride of 0x18 in its buffer. */
  ghost predicate ListDesignated(data: seq<u8>, target: seq<u64>, c: Category)
    requires |target| == FIELD_COUNT
  {
    forall k :: 0 <= k < ListCount(c) ==> target[ListField(c, k)] == WordIn(data, LIST_STRIDE * k)
  }

  /** The counters of a category: its head word in the block, then its list. */
  ghost predicate CategoryDesignated(mem: Memory, block: nat, target: seq<u64>, c: Category)
    requires |target| == FIELD_COUNT
  {
    && target[HeadField(c)] == WordIn(BlockBytes(mem, block), HeadOffset(c))
    && ListDesignated(ListBytes(mem, block, c), target, c)
  }

  /** Scalar `i` is the word at offset `0x28 * i` of the block. */
  lemma ScalarLayout(mem: Memory, base: nat)
    ensures ScalarsDesignated(BlockBytes(mem, BlockAddress(mem, base)), LayoutCounters(mem, base))
  {
    forall i | 0 <= i < SCALAR_COUNT {
      LayoutCountersAt(mem, base, i);
    }
  }

  /** A category's head counter is the word at its head offset of the block,
      and its `k`-th list counter the word at offset `0x18 * k` of its list. */
  lemma CategoryLayout(mem: Memory, base: nat, c: Category)
    ensures CategoryDesignated(mem, BlockAddress(mem, base), LayoutCounters(mem, base), c)
  {
    LayoutCountersAt(mem, base, HeadField(c));
    forall k | 0 <= k < ListCount(c) {
      LayoutCountersAt(mem, base, ListField(c, k));
    }
  }

  /** `enemy_kills.monkey` is the last word of the block. */
  lemma MonkeyLayout(mem: Memory, base: nat)
    ensures LayoutCounters(mem, base)[MONKEY_FIELD] == WordIn(BlockBytes(mem, BlockAddress(mem, base)), BLOCK_SIZE - WORD)
  {
    LayoutCountersAt(mem, base, MONKEY_FIELD);
  }

  /** A word of a fully read range is the word stored in memory at the
      corresponding address. */
  lemma WordInFetch(mem: Memory, addr: nat, n: nat, p: nat)
    requires Readable(mem, addr, n) && p + WORD <= n
    ensures Readable(mem, addr + p, WORD)
    ensures WordIn(Fetch(mem, addr, n), p) == WordAt(mem, addr + p)
  {
    var data := Fetch(mem, addr, n);
    FetchComplete(mem, addr, n);
    FetchBytes(mem, addr, n);
    ReadableEvery(mem, addr + p, WORD);
    var word := seq(WORD, i requires 0 <= i < WORD => mem[addr + p + i]);
    forall i | 0 <= i < WORD
      ensures data[p..p + WORD][i] == word[i]
    {
      assert data[(addr + p + i) - addr] == mem[addr + p + i];
    }
    assert data[p..p + WORD] == word;
  }

  /** A value of a fully read list is the word stored at its address. */
  lemma ListWord(mem: Memory, block: nat, c: Category, k: nat)
    requires ListReadable(mem, ListPointerSlot(block, c), c) && k < ListCount(c)
    ensures Readable(mem, ListAddress(mem, block, c) + LIST_STRIDE * k, WORD)
    ensures WordIn(ListBytes(mem, block, c), LIST_STRIDE * k) == WordAt(mem, ListAddress(mem, block, c) + LIST_STRIDE * k)
  {
    WordInFetch(mem, ListAddress(mem, block, c), ListLength(c), LIST_STRIDE * k);
  }

  /** Each category is among those the decoder reads. */
  lemma CategoryReadable(mem: Memory, base: nat, c: Category)
    requires LayoutReadable(mem, base)
    ensures ListReadable(mem, ListPointerSlot(BlockAddress(mem, base), c), c)
  {
    var n := match c
      case LevelDeathsList => 0
      case EnemyDeathsList => 1
      case MiscDeathsList => 2
      case EnemyKillsList => 3;
    assert CategoryAt(n) == c;
  }

  /** A slot whose buffer was read in full designates the word stored in
      memory at its address. */
  lemma SlotReadWord(mem: Memory, block: nat, s: Slot)
    requires s.Primary? ==> s.offset + WORD <= BLOCK_SIZE && Readable(mem, block, BLOCK_SIZE)
    requires s.Listed? ==> s.index < ListCount(s.list) && ListReadable(mem, ListPointerSlot(block, s.list), s.list)
    ensures Readable(mem, SlotAddress(mem, block, s), WORD)
    ensures SlotWord(mem, block, s) == WordAt(mem, SlotAddress(mem, block, s))
  {
    match s
    case Primary(offset) =>
      WordInFetch(mem, block, BLOCK_SIZE, offset);
    case Listed(c, k) =>
      ListWord(mem, block, c, k);
  }

  /** When every read succeeds, each counter of the designated record is the
      word stored in memory at its field address. */
  lemma FieldWord(mem: Memory, base: nat, f: nat)
    requires f < FIELD_COUNT && LayoutReadable(mem, base)
    ensures Readable(mem, FieldAddress(mem, base, f), WORD)
    ensures LayoutCounters(mem, base)[f] == WordAt(mem, FieldAddress(mem, base, f))
  {
    var block := BlockAddress(mem, base);
    var s := SlotOf(f);
    LayoutCountersAt(mem, base, f);
    if s.Listed? {
      CategoryReadable(mem, base, s.list);
    }
    SlotReadWord(mem, block, s);
  }

  // ---------------------------------------------------------------------------
  // Assignment order

  /** The counters after the first `j` assignment steps: those assigned so far
      come from `read`, the others are still those of `prior`. */
  function Merge(prior: seq<u64>, read: seq<u64>, j: nat): (m: seq<u64>)
    requires |prior| == FIELD_COUNT && |read| == FIELD_COUNT
    ensures |m| == FIELD_COUNT
  {
    seq(FIELD_COUNT, f requires 0 <= f < FIELD_COUNT => if StepOf(f) < j then read[f] else prior[f])
  }

  /** The record after an update that stopped somewhere before its last assignment. */
  ghost predicate PartiallyUpdated(prior: Stats, updated: Stats, mem: Memory, base: nat) {
    exists j :: 0 <= j < FIELD_COUNT
      && updated.Counters() == Merge(prior.Counters(), LayoutCounters(mem, base), j)
  }

  lemma MergeStart(prior: seq<u64>, read: seq<u64>)
    requires |prior| == FIELD_COUNT && |read| == FIELD_COUNT
    ensures Merge(prior, read, 0) == prior
  {
  }

  lemma MergeDone(prior: seq<u64>, read: seq<u64>)
    requires |prior| == FIELD_COUNT && |read| == FIELD_COUNT
    ensures Merge(prior, read, FIELD_COUNT) == read
  {
  }

  /** Assigning the counter of step `j` its designated value completes step `j`. */
  lemma MergeStep(prior: seq<u64>, read: seq<u64>, j: nat, fields: seq<u64>, f: nat, v: u64)
    requires |prior| == FIELD_COUNT && |read| == FIELD_COUNT && j < FIELD_COUNT
    requires fields == Merge(prior, read, j)
    requires f < FIELD_COUNT && StepOf(f) == j && v == read[f]
    ensures fields[f := v] == Merge(prior, read, j + 1)
  {
    WriteOrderInverse(f);
  }

  // ---------------------------------------------------------------------------
  // The decoder

  datatype DecodeError =
    | Read(cause: ReadError)        // a pointer or block read failed
    | Io(failure: CursorError)      // a cursor read ran past the end of its buffer

  /** The values of a category's list, one word every 0x18 bytes. */
  method ReadListValues(mem: Memory, list: nat, listCursor: Cursor, c: Category,
                        ghost target: seq<u64>, ghost prior: seq<u64>, fields: seq<u64>, ghost written: nat)
    returns (res: Result<(), DecodeError>, fields': seq<u64>, ghost written': nat)
    requires listCursor.Valid() && listCursor.pos == 0
    requires listCursor.data == Fetch(mem, list, ListLength(c))
    requires |target| == FIELD_COUNT && ListDesignated(listCursor.data, target, c)
    requires |prior| == FIELD_COUNT && written == HeadField(c) + 1
    requires fields == Merge(prior, target, written)
    modifies listCursor
    ensures |fields'| == FIELD_COUNT
    ensures fields' == Merge(prior, target, written')
    ensures res.Ok? ==> written' == written + ListCount(c)
    ensures res.Ok? <==> Readable(mem, list, ListLength(c))
    ensures res.Err? ==> written <= written' < written + ListCount(c)
  {
    FetchComplete(mem, list, ListLength(c));
    fields', written' := fields, written;
    var k := 0;
    while k < ListCount(c)
      invariant 0 <= k <= ListCount(c)
      invariant listCursor.Valid() && listCursor.pos == LIST_STRIDE * k
      invariant k > 0 ==> LIST_STRIDE * (k - 1) + WORD <= |listCursor.data|
      invariant written' == written + k
      invariant fields' == Merge(prior, target, written')
      modifies listCursor
    {
      var value := listCursor.ReadU64Le();
      if value.Err? {
        return Err(Io(value.error)), fields', written';
      }
      var f := ListField(c, k);
      MergeStep(prior, target, written', fields', f, value.value);
      fields' := fields'[f := value.value];
      written' := written' + 1;
      var skipped := listCursor.Seek(LIST_SKIP);
      assert skipped.Ok?;
      k := k + 1;
    }
    res := Ok(());
  }

  /** A category's list: two pointers are followed from `slot`, then the list's
      bytes are read and its values taken. */
  method ReadList(mem: Memory, slot: nat, c: Category,
                  ghost target: seq<u64>, ghost prior: seq<u64>, fields: seq<u64>, ghost written: nat)
    returns (res: Result<(), DecodeError>, fields': seq<u64>, ghost written': nat)
    requires |target| == FIELD_COUNT && ListDesignated(Fetch(mem, ListStart(mem, slot), ListLength(c)), target, c)
    requires |prior| == FIELD_COUNT && written == HeadField(c) + 1
    requires fields == Merge(prior, target, written)
    ensures |fields'| == FIELD_COUNT
    ensures fields' == Merge(prior, target, written')
    ensures res.Ok? ==> written' == written + ListCount(c)
    ensures res.Ok? <==> ListReadable(mem, slot, c)
    ensures res.Err? ==> written <= written' < written + ListCount(c)
  {
    fields', written' := fields, written;
    var pointer := ReadUPtr32(mem, slot);
    if pointer.Err? {
      return Err(Read(pointer.error)), fields', written';
    }
    var list := ReadUPtr32(mem, pointer.value);
    if list.Err? {
      return Err(Read(list.error)), fields', written';
    }
    var listAddr := list.value + LIST_HEADER;
    var loaded := ReadNBytes(mem, listAddr, ListLength(c));
    if loaded.Err? {
      return Err(Read(loaded.error)), fields', written';
    }
    res, fields', written' := ReadListValues(mem, listAddr, loaded.value, c, target, prior, fields', written');
  }

  /** One category: its head word from the block cursor, then its list, and
      finally the block cursor's skip to the next head. */
  method ReadCategory(mem: Memory, block: nat, cursor: Cursor, c: Category,
                      ghost target: seq<u64>, ghost prior: seq<u64>, fields: seq<u64>, ghost written: nat)
    returns (res: Result<(), DecodeError>, fields': seq<u64>, ghost written': nat)
    requires cursor.Valid() && cursor.pos == HeadOffset(c)
    requires cursor.data == Fetch(mem, block, BLOCK_SIZE)
    requires |target| == FIELD_COUNT && CategoryDesignated(mem, block, target, c)
    requires |prior| == FIELD_COUNT && written == HeadField(c)
    requires fields == Merge(prior, target, written)
    modifies cursor
    ensures cursor.Valid() && |fields'| == FIELD_COUNT
    ensures fields' == Merge(prior, target, written')
    ensures res.Ok? ==> cursor.pos == HeadOffset(c) + PRIMARY_STRIDE
    ensures res.Ok? ==> written' == written + 1 + ListCount(c)
    ensures res.Ok? ==> ListReadable(mem, ListPointerSlot(block, c), c)
    ensures res.Err? ==> written <= written' < FIELD_COUNT
    ensures res.Err? ==> !(Readable(mem, block, BLOCK_SIZE) && ListReadable(mem, ListPointerSlot(block, c), c))
  {
    FetchComplete(mem, block, BLOCK_SIZE);
    var head := cursor.ReadU64Le();
    if head.Err? {
      res, fields', written' := Err(Io(head.error)), fields, written;
    } else {
      MergeStep(prior, target, written, fields, HeadField(c), head.value);
      var slot := block + cursor.pos + LIST_POINTER_OFFSET;
      assert slot == ListPointerSlot(block, c);
      res, fields', written' := ReadList(mem, slot, c, target, prior,
                                         fields[HeadField(c) := head.value], written + 1);
      if res.Ok? {
        var skipped := cursor.Seek(PRIMARY_SKIP);
        assert skipped.Ok?;
      }
    }
  }

  /** The 14 scalar counters, at a stride of 0x28 from the start of the block. */
  method ReadScalars(mem: Memory, block: nat, cursor: Cursor,
                     ghost target: seq<u64>, ghost prior: seq<u64>, fields: seq<u64>)
    returns (res: Result<(), DecodeError>, fields': seq<u64>, ghost written': nat)
    requires cursor.Valid() && cursor.pos == 0
    requires cursor.data == Fetch(mem, block, BLOCK_SIZE)
    requires |target| == FIELD_COUNT
    requires ScalarsDesignated(cursor.data, target)
    requires |prior| == FIELD_COUNT && fields == Merge(prior, target, 0)
    modifies cursor
    ensures cursor.Valid() && |fields'| == FIELD_COUNT
    ensures fields' == Merge(prior, target, written')
    ensures res.Ok? ==> cursor.pos == HeadOffset(LevelDeathsList) && written' == SCALAR_COUNT
    ensures res.Err? ==> written' < SCALAR_COUNT && !Readable(mem, block, BLOCK_SIZE)
  {
    FetchComplete(mem, block, BLOCK_SIZE);
    fields' := fields;
    var i := 0;
    while i < SCALAR_COUNT
      invariant 0 <= i <= SCALAR_COUNT
      invariant cursor.Valid() && cursor.pos == PRIMARY_STRIDE * i
      invariant fields' == Merge(prior, target, i)
      modifies cursor
    {
      var value := cursor.ReadU64Le();
      if value.Err? {
        return Err(Io(value.error)), fields', i;
      }
      MergeStep(prior, target, i, fields', i, value.value);
      fields' := fields'[i := value.value];
      var skipped := cursor.Seek(PRIMARY_SKIP);
      assert skipped.Ok?;
      i := i + 1;
    }
    return Ok(()), fields', i;
  }

  /** The four categories in turn, each starting where the previous one left
      the block cursor. */
  method ReadCategories(mem: Memory, block: nat, cursor: Cursor,
                        ghost target: seq<u64>, ghost prior: seq<u64>, fields: seq<u64>)
    returns (res: Result<(), DecodeError>, fields': seq<u64>, ghost written': nat)
    requires cursor.Valid() && cursor.pos == HeadOffset(LevelDeathsList)
    requires cursor.data == Fetch(mem, block, BLOCK_SIZE)
    requires |target| == FIELD_COUNT && forall c :: CategoryDesignated(mem, block, target, c)
    requires |prior| == FIELD_COUNT && fields == Merge(prior, target, SCALAR_COUNT)
    modifies cursor
    ensures cursor.Valid() && |fields'| == FIELD_COUNT
    ensures fields' == Merge(prior, target, written')
    ensures res.Ok? ==> cursor.pos == MONKEY_OFFSET && written' == StepOf(MONKEY_FIELD)
    ensures res.Ok? ==> forall n :: 0 <= n < CATEGORY_COUNT ==> ListReadable(mem, ListPointerSlot(block, CategoryAt(n)), CategoryAt(n))
    ensures res.Err? ==> written' < FIELD_COUNT
    ensures res.Err? ==> !(Readable(mem, block, BLOCK_SIZE)
                           && forall n :: 0 <= n < CATEGORY_COUNT ==> ListReadable(mem, ListPointerSlot(block, CategoryAt(n)), CategoryAt(n)))
  {
    fields', written' := fields, SCALAR_COUNT;
    var n := 0;
    while n < CATEGORY_COUNT
      invariant 0 <= n <= CATEGORY_COUNT
      invariant cursor.Valid() && cursor.pos == PRIMARY_STRIDE * (SCALAR_COUNT + n)
      invariant written' == if n == 0 then SCALAR_COUNT else CategoryEnd(CategoryAt(n - 1))
      invariant fields' == Merge(prior, target, written')
      invariant forall m :: 0 <= m < n ==> ListReadable(mem, ListPointerSlot(block, CategoryAt(m)), CategoryAt(m))
      modifies cursor
    {
      CategoryOrder(n);
      res, fields', written' := ReadCategory(mem, block, cursor, CategoryAt(n), target, prior, fields', written');
      if res.Err? {
        return;
      }
      n := n + 1;
    }
    res := Ok(());
  }

  /** The pointer chain from the module base to the block, and the block's bytes. */
  method LocateBlock(mem: Memory, base: nat) returns (r: Result<(nat, Cursor), DecodeError>)
    ensures r.Ok? <==> && base + ENTRY_OFFSET in mem
                       && PointerAt(mem, base + ENTRY_OFFSET) + CHAIN_OFFSET in mem
                       && BlockAddress(mem, base) in mem
    ensures r.Ok? ==> r.value.0 == BlockAddress(mem, base)
    ensures r.Ok? ==> fresh(r.value.1) && r.value.1.Valid() && r.value.1.pos == 0
    ensures r.Ok? ==> r.value.1.data == Fetch(mem, BlockAddress(mem, base), BLOCK_SIZE)
  {
    var entry := ReadUPtr32(mem, base + ENTRY_OFFSET);
    if entry.Err? {
      return Err(Read(entry.error));
    }
    var chain := ReadUPtr32(mem, entry.value + CHAIN_OFFSET);
    if chain.Err? {
      return Err(Read(chain.error));
    }
    var block := chain.value + BLOCK_DISPLACEMENT;
    var loaded := ReadNBytes(mem, block, BLOCK_SIZE);
    if loaded.Err? {
      return Err(Read(loaded.error));
    }
    return Ok((block, loaded.value));
  }

  /** The body of `update_from_memory` on the 89 counters in declaration
      order: the pointer chain to the block, the scalars, the four
      categories, and last the monkey kills from the block's final word. */
  method ReadCounters(mem: Memory, base: nat, prior: seq<u64>)
    returns (res: Result<(), DecodeError>, fields: seq<u64>, ghost written: nat)
    requires |prior| == FIELD_COUNT
    ensures |fields| == FIELD_COUNT
    ensures fields == Merge(prior, LayoutCounters(mem, base), written)
    ensures res.Ok? <==> LayoutReadable(mem, base)
    ensures res.Ok? ==> written == FIELD_COUNT
    ensures res.Err? ==> written < FIELD_COUNT
  {
    ghost var target := LayoutCounters(mem, base);
    fields, written := prior, 0;
    MergeStart(prior, target);

    var located := LocateBlock(mem, base);
    if located.Err? {
      return Err(located.error), fields, written;
    }
    var (block, cursor) := located.value;
    FetchComplete(mem, block, BLOCK_SIZE);
    ScalarLayout(mem, base);
    forall c | true
      ensures CategoryDesignated(mem, block, target, c)
    {
      CategoryLayout(mem, base, c);
    }
    MonkeyLayout(mem, base);

    res, fields, written := ReadScalars(mem, block, cursor, target, prior, fields);
    if res.Err? {
      return;
    }
    res, fields, written := ReadCategories(mem, block, cursor, target, prior, fields);
    if res.Err? {
      return;
    }

    var monkey := cursor.ReadU64Le();
    if monkey.Err? {
      return Err(Io(monkey.error)), fields, written;
    }
    MergeStep(prior, target, written, fields, MONKEY_FIELD, monkey.value);
    fields, written := fields[MONKEY_FIELD := monkey.value], written + 1;
    res := Ok(());
  }

  /** `Stats::update_from_memory`: assigns the counters one by one from the
      game's memory. When every read succeeds the result is the record the
      layout designates, whatever the starting record was; otherwise the
      counters assigned before the failing read keep their new values. */
  method UpdateFromMemory(stats: Stats, mem: Memory, base: nat)
    returns (res: Result<(), DecodeError>, updated: Stats)
    ensures res.Ok? <==> LayoutReadable(mem, base)
    ensures res.Ok? ==> updated == Layout(mem, base)
    ensures res.Err? ==> PartiallyUpdated(stats, updated, mem, base)
  {
    var fields;
    ghost var written;
    res, fields, written := ReadCounters(mem, base, stats.Counters());
    if res.Ok? {
      MergeDone(stats.Counters(), LayoutCounters(mem, base));
    }
    updated := Stats.FromCounters(fields);
    CountersRoundTrip(fields);
  }

  /** `Stats::from_memory`: a record only when every read succeeds, and then
      exactly the record the layout designates. */
  method FromMemory(mem: Memory, base: nat) returns (r: Result<Stats, DecodeError>)
    ensures r.Ok? <==> LayoutReadable(mem, base)
    ensures r.Ok? ==> r.value == Layout(mem, base)
  {
    var res, stats := UpdateFromMemory(DEFAULT, mem, base);
    if res.Err? {
      return Err(res.error);
    }
    return Ok(stats);
  }
}
