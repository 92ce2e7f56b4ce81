/** The period of the generator of kern/dev/generic/pseudorand.c: from any seed, all seeds come round before the
    first comes again. */
module PseudorandPeriod {
  import opened Pseudorand
  import opened Sums

  /** The number of seeds. */
  const SEEDS: nat := 0x7fff_fffe

  /** The seed after n numbers have been drawn. */
  function Draw(s: nat, n: nat): nat {
    if n == 0 then s else Next(Draw(s, n - 1))
  }

  lemma {:induction false} DrawSeed(s: nat, n: nat)
    requires Seed(s)
    ensures Seed(Draw(s, n))
  {
    if n > 0 {
      DrawSeed(s, n - 1);
      var x := MULTIPLIER * Draw(s, n - 1);
      NeverZero(Draw(s, n - 1), x / MODULUS, x % MODULUS);
    }
  }

  lemma {:induction false} DrawAdd(s: nat, m: nat, n: nat)
    ensures Draw(Draw(s, m), n) == Draw(s, m + n)
  {
    if n > 0 {
      DrawAdd(s, m, n - 1);
    }
  }

  lemma MulMod(x: int, y: int)
    ensures x * (y % MODULUS) % MODULUS == x * y % MODULUS
  {
    var q, r := y / MODULUS, y % MODULUS;
    var p, z := x * r / MODULUS, x * r % MODULUS;
    assert x * y == x * r + MODULUS * (x * q) by {
      assert x * y == x * (MODULUS * q + r);
    }
    assert x * y == MODULUS * (p + x * q) + z;
    Remainder(x * y, p + x * q, z);
  }

  /** Drawing multiplies. */
  lemma {:induction false} DrawScale(s: nat, n: nat)
    requires s < MODULUS
    ensures Draw(s, n) == s * Draw(1, n) % MODULUS
  {
    hide Next;
    if n > 0 {
      DrawScale(s, n - 1);
      NextScale(s, Draw(1, n - 1));
    }
  }

  lemma NextScale(s: nat, d: nat)
    ensures Next(s * d % MODULUS) == s * Next(d) % MODULUS
  {
    MulMod(MULTIPLIER, s * d);
    MulMod(s, MULTIPLIER * d);
    assert MULTIPLIER * (s * d) == s * (MULTIPLIER * d);
  }

  // ------------------------------------------------------- the returns to seed 1

  predicate Home(n: nat) {
    Draw(1, n) == 1
  }

  lemma HomeAdd(a: nat, b: nat)
    requires Home(a)
    ensures Home(a + b) <==> Home(b)
  {
    DrawAdd(1, a, b);
  }

  lemma {:induction false} HomeTimes(a: nat, k: nat)
    requires Home(a)
    ensures Home(a * k)
  {
    if k > 0 {
      HomeTimes(a, k - 1);
      HomeAdd(a, a * (k - 1));
      assert a + a * (k - 1) == a * k;
    }
  }

  ghost predicate Prime(q: nat) {
    q >= 2 && forall g :: 2 <= g < q ==> q % g != 0
  }

  predicate Indivisible(q: nat, g: nat) {
    g < 2 || (q % g != 0 && Indivisible(q, g - 1))
  }

  /** A number is prime if nothing up to its square root divides it. */
  lemma PrimeIf(q: nat, r: nat)
    requires q >= 2 && Indivisible(q, r) && (r + 1) * (r + 1) > q
    ensures Prime(q)
  {
    IndivisibleBy(q, r);
    forall g | 2 <= g < q
      ensures q % g != 0
    {
      NotFactor(q, g, r);
    }
  }

  lemma NotFactor(q: nat, g: nat, r: nat)
    requires 2 <= g < q && (r + 1) * (r + 1) > q && forall h :: 2 <= h <= r ==> q % h != 0
    ensures q % g != 0
  {
    if q % g == 0 {
      var h, rest := Divide(q, g);
      SmallFactor(q, g, h, r);
      Multiple(h, g);
    }
  }

  lemma SmallFactor(q: nat, g: nat, h: nat, r: nat)
    requires q == g * h && 2 <= g < q && (r + 1) * (r + 1) > q
    ensures h >= 2 && (g <= r || h <= r)
  {
    assert g > r && h > r ==> g * h >= (r + 1) * h >= (r + 1) * (r + 1);
    assert h < 2 ==> g * h == 0 || g * h == g;
  }

  lemma {:induction false} IndivisibleBy(q: nat, g: nat)
    requires Indivisible(q, g)
    ensures forall h :: 2 <= h <= g ==> q % h != 0
  {
    if g >= 2 {
      IndivisibleBy(q, g - 1);
    }
  }

  /** Modulo a prime every number has an inverse. */
  lemma {:induction false} Inverse(q: nat, r: nat) returns (u: nat, v: nat)
    requires Prime(q) && 0 < r < q
    ensures u * r == v * q + 1
    decreases r
  {
    if r == 1 {
      u, v := 1, 0;
    } else {
      var k, r' := Divide(q, r);
      var u', v' := Inverse(q, r');
      u, v := u' * (q - k), u' * (r - 1) + v';
      InverseStep(q, r, k, r', u', v');
    }
  }

  lemma Divide(q: nat, r: nat) returns (k: nat, r': nat)
    requires r > 0
    ensures q == r * k + r' && r' == q % r < r && k <= q
  {
    k, r' := q / r, q % r;
    assert r * k >= k;
  }

  lemma InverseStep(q: nat, r: nat, k: nat, r': nat, u': nat, v': nat)
    requires q == r * k + r' && u' * r' == v' * q + 1
    ensures u' * (q - k) * r == (u' * (r - 1) + v') * q + 1
  {
    calc {
      u' * (q - k) * r;
      u' * q * r - u' * (r * k);
      u' * q * r - u' * (q - r');
      u' * q * r - u' * q + u' * r';
      u' * (r - 1) * q + v' * q + 1;
    }
  }

  /** A number that is not a multiple of the prime q has a multiple that is 1 more than a multiple of q. */
  lemma Invert(q: nat, n: nat) returns (u: nat, v: nat)
    requires Prime(q) && n % q != 0
    ensures u * n == v * q + 1
  {
    var w;
    u, w := Inverse(q, n % q);
    v := u * (n / q) + w;
    assert u * n == u * (q * (n / q) + n % q);
  }

  /** If a q-th of the way does not lead home, then a way home of c * m has an m that is a multiple of q: otherwise
      some multiple of it would be a q-th more than some whole ways. */
  lemma Share(q: nat, c: nat, x: nat, n: nat, m: nat)
    requires Prime(q) && q * x == SEEDS && Home(SEEDS) && !Home(x)
    requires Home(n) && n == c * m && c > 0 && x % c == 0
    ensures m % q == 0
  {
    hide Home;
    hide Prime;
    if m % q != 0 {
      var u, v := Invert(q, m);
      var y := x / c;
      assert x == c * y;
      ShareStep(q, c, m, u, v, x, y);
      HomeLeft(n, u * y, v, x);
    }
  }

  lemma HomeLeft(n: nat, k: nat, v: nat, x: nat)
    requires Home(n) && Home(SEEDS) && n * k == SEEDS * v + x
    ensures Home(x)
  {
    hide Home;
    HomeTimes(n, k);
    HomeTimes(SEEDS, v);
    HomeAdd(SEEDS * v, x);
  }

  lemma ShareStep(q: nat, c: nat, m: nat, u: nat, v: nat, x: nat, y: nat)
    requires u * m == v * q + 1 && x == c * y
    ensures c * m * (u * y) == q * x * v + x
  {
    calc {
      c * m * (u * y);
      (u * m) * (c * y);
      (v * q + 1) * x;
      q * x * v + x;
    }
  }

  /** A common multiple of two numbers without a common factor is a multiple of their product. */
  lemma Common(a: nat, b: nat, u: nat, v: nat, n: nat)
    requires a > 0 && b > 0 && u * a == v * b + 1 && n % a == 0 && n % b == 0
    ensures n % (a * b) == 0
  {
    var i, j := n / a, n / b;
    assert n == a * i && n == b * j;
    calc {
      n;
      n * (u * a) - n * (v * b);
      b * j * (u * a) - a * i * (v * b);
      a * b * (u * j - v * i);
    }
    Multiple(a * b, u * j - v * i);
  }

  lemma Multiple(a: nat, k: int)
    requires a > 0
    ensures a * k % a == 0
  {
    var q, r := a * k / a, a * k % a;
    assert r == a * (k - q);
    assert k - q >= 1 ==> a * (k - q) >= a;
    assert k - q <= -1 ==> a * (k - q) <= a * -1;
  }

  // --------------------------------------- the prime factors of SEEDS and their shares

  /** The modulus is written out here, so that the products below are products of numerals. */
  lemma Plus(m: nat, n: nat, a: nat, b: nat, c: nat)
    requires Draw(1, m) == a && Draw(1, n) == b && a * b % 0x7fff_ffff == c
    ensures Draw(1, m + n) == c
  {
    DrawSeed(1, m);
    DrawAdd(1, m, n);
    DrawScale(a, n);
  }

  lemma Fourfold(n: nat, a: nat, b: nat, c: nat)
    requires Draw(1, n) == a && a * a % 0x7fff_ffff == b && b * b % 0x7fff_ffff == c
    ensures Draw(1, 4 * n) == c
  {
    Plus(n, n, a, a, b);
    Plus(2 * n, 2 * n, b, b, c);
  }

  lemma One()
    ensures Draw(1, 1) == 16807
  {
    assert Draw(1, 0) == 1;
  }

  lemma Stem1386()
    ensures Draw(1, 1386) == 1179617774
  {
    hide Draw;
    One();
    Plus(1, 1, 16807, 16807, 282475249);
    Fourfold(1, 16807, 282475249, 984943658);
    Plus(4, 1, 984943658, 16807, 1144108930);
    Fourfold(5, 1144108930, 2007237709, 143542612);
    Plus(20, 1, 143542612, 16807, 896544303);
    Fourfold(21, 896544303, 2110010672, 1478446501);
    Plus(84, 2, 1478446501, 282475249, 1351934195);
    Fourfold(86, 1351934195, 1901915394, 1564674546);
    Plus(344, 2, 1564674546, 282475249, 2028841238);
    Fourfold(346, 2028841238, 346645555, 1843638691);
    Plus(1384, 2, 1843638691, 282475249, 1179617774);
  }

  lemma Stem31()
    ensures Draw(1, 31) == 1954899097
  {
    hide Draw;
    One();
    Plus(1, 1, 16807, 16807, 282475249);
    Plus(2, 1, 282475249, 16807, 1622650073);
    Fourfold(1, 16807, 282475249, 984943658);
    Plus(4, 3, 984943658, 1622650073, 101027544);
    Fourfold(7, 101027544, 74243042, 1404280278);
    Plus(28, 3, 1404280278, 1622650073, 1954899097);
  }

  lemma Stem4681()
    requires Draw(1, 31) == 1954899097
    ensures Draw(1, 4681) == 184149733
  {
    hide Draw;
    Plus(31, 31, 1954899097, 1954899097, 1083454666);
    Plus(62, 31, 1083454666, 1954899097, 753799505);
    Fourfold(62, 1083454666, 889688008, 329863108);
    Plus(248, 31, 329863108, 1954899097, 907225550);
    Fourfold(279, 907225550, 977260520, 931853946);
    Plus(1116, 31, 931853946, 1954899097, 38193236);
    Fourfold(1147, 38193236, 2059254006, 244403759);
    Plus(4588, 93, 244403759, 753799505, 184149733);
  }

  lemma Stem1549411()
    requires Draw(1, 4681) == 184149733
    ensures Draw(1, 1549411) == 942143378
  {
    hide Draw;
    Plus(4681, 4681, 184149733, 184149733, 1588280530);
    Plus(9362, 4681, 1588280530, 184149733, 1815234683);
    Fourfold(4681, 184149733, 1588280530, 1292075693);
    Plus(18724, 4681, 1292075693, 184149733, 1852503222);
    Fourfold(23405, 1852503222, 1474535260, 1152674425);
    Fourfold(93620, 1152674425, 1397824669, 583539915);
    Plus(374480, 9362, 583539915, 1588280530, 1312403336);
    Fourfold(383842, 1312403336, 851025965, 224156222);
    Plus(1535368, 14043, 224156222, 1815234683, 942143378);
  }

  lemma Not2()
    requires Draw(1, 1549411) == 942143378
    ensures Draw(1, 1073741823) == 2147483646
  {
    hide Draw;
    Plus(1549411, 1549411, 942143378, 942143378, 1451889758);
    Plus(3098822, 1549411, 1451889758, 942143378, 1689239032);
    Fourfold(3098822, 1451889758, 1501098710, 428076767);
    Plus(12395288, 3098822, 428076767, 1451889758, 1821461676);
    Fourfold(15494110, 1821461676, 1843685858, 414435187);
    Plus(61976440, 4648233, 414435187, 1689239032, 2138340525);
    Fourfold(66624673, 2138340525, 1583980115, 2074347161);
    Plus(266498692, 1549411, 2074347161, 942143378, 1970716738);
    Fourfold(268048103, 1970716738, 218535593, 334090882);
    Plus(1072192412, 1549411, 334090882, 942143378, 2147483646);
  }

  lemma Not3()
    requires Draw(1, 1549411) == 942143378
    ensures Draw(1, 715827882) == 634005911
  {
    hide Draw;
    Plus(1549411, 1549411, 942143378, 942143378, 1451889758);
    Plus(3098822, 1549411, 1451889758, 942143378, 1689239032);
    Fourfold(1549411, 942143378, 1451889758, 1501098710);
    Plus(6197644, 4648233, 1501098710, 1689239032, 1461621549);
    Fourfold(10845877, 1461621549, 611601736, 1794521444);
    Fourfold(43383508, 1794521444, 40851395, 1161558561);
    Plus(173534032, 4648233, 1161558561, 1689239032, 1892259618);
    Fourfold(178182265, 1892259618, 1342121597, 181291303);
    Plus(712729060, 3098822, 181291303, 1451889758, 634005911);
  }

  lemma Not7()
    requires Draw(1, 1549411) == 942143378
    ensures Draw(1, 306783378) == 1600955193
  {
    hide Draw;
    Plus(1549411, 1549411, 942143378, 942143378, 1451889758);
    Plus(3098822, 1549411, 1451889758, 942143378, 1689239032);
    Fourfold(4648233, 1689239032, 1429973598, 494294169);
    Fourfold(18592932, 494294169, 1237897002, 2009938488);
    Plus(74371728, 1549411, 2009938488, 942143378, 693005735);
    Fourfold(75921139, 693005735, 202379582, 2047627331);
    Plus(303684556, 3098822, 2047627331, 1451889758, 1600955193);
  }

  lemma Not11()
    requires Draw(1, 1549411) == 942143378
    ensures Draw(1, 195225786) == 298192073
  {
    hide Draw;
    Plus(1549411, 1549411, 942143378, 942143378, 1451889758);
    Plus(3098822, 1549411, 1451889758, 942143378, 1689239032);
    Fourfold(1549411, 942143378, 1451889758, 1501098710);
    Plus(6197644, 4648233, 1501098710, 1689239032, 1461621549);
    Fourfold(10845877, 1461621549, 611601736, 1794521444);
    Plus(43383508, 4648233, 1794521444, 1689239032, 107324696);
    Fourfold(48031741, 107324696, 1337576049, 655419761);
    Plus(192126964, 3098822, 655419761, 1451889758, 298192073);
  }

  lemma Not31()
    requires Draw(1, 1386) == 1179617774
    ensures Draw(1, 69273666) == 16384
  {
    hide Draw;
    Plus(1386, 1386, 1179617774, 1179617774, 970181005);
    Plus(2772, 1386, 970181005, 1179617774, 2047383381);
    Fourfold(4158, 2047383381, 1193132871, 1552828735);
    Fourfold(16632, 1552828735, 1640375542, 1754111779);
    Fourfold(66528, 1754111779, 1960918547, 1328349768);
    Plus(266112, 4158, 1328349768, 2047383381, 67530881);
    Fourfold(270270, 67530881, 2141030491, 1366961359);
    Fourfold(1081080, 1366961359, 1862329524, 1150593850);
    Plus(4324320, 4158, 1150593850, 2047383381, 898522581);
    Fourfold(4328478, 898522581, 51967814, 1879791513);
    Plus(17313912, 4158, 1879791513, 2047383381, 1980344696);
    Fourfold(17318070, 1980344696, 1736014192, 2032206776);
    Plus(69272280, 1386, 2032206776, 1179617774, 16384);
  }

  lemma Not151()
    requires Draw(1, 1386) == 1179617774
    ensures Draw(1, 14221746) == 1013763951
  {
    hide Draw;
    Plus(1386, 1386, 1179617774, 1179617774, 970181005);
    Fourfold(2772, 970181005, 1094497686, 1818048795);
    Plus(11088, 2772, 1818048795, 970181005, 644118171);
    Fourfold(13860, 644118171, 1871656734, 77392730);
    Fourfold(55440, 77392730, 2117659320, 606931882);
    Fourfold(221760, 606931882, 1954902861, 872591687);
    Plus(887040, 1386, 872591687, 1179617774, 114989482);
    Fourfold(888426, 114989482, 170039456, 1716245810);
    Plus(3553704, 1386, 1716245810, 1179617774, 1580662812);
    Fourfold(3555090, 1580662812, 1633739483, 761038979);
    Plus(14220360, 1386, 761038979, 1179617774, 1013763951);
  }

  lemma Not331()
    requires Draw(1, 1386) == 1179617774
    ensures Draw(1, 6487866) == 759513457
  {
    hide Draw;
    Plus(1386, 1386, 1179617774, 1179617774, 970181005);
    Fourfold(1386, 1179617774, 970181005, 1094497686);
    Fourfold(5544, 1094497686, 1818048795, 773365020);
    Plus(22176, 2772, 773365020, 970181005, 97566603);
    Fourfold(24948, 97566603, 1064589535, 174523262);
    Plus(99792, 1386, 174523262, 1179617774, 1513912790);
    Fourfold(101178, 1513912790, 233383628, 1589393184);
    Fourfold(404712, 1589393184, 1224493497, 1930480611);
    Plus(1618848, 2772, 1930480611, 970181005, 1533699249);
    Fourfold(1621620, 1533699249, 561537532, 42038222);
    Plus(6486480, 1386, 42038222, 1179617774, 759513457);
  }

  lemma Primes()
    ensures Prime(2) && Prime(3) && Prime(7) && Prime(11) && Prime(31) && Prime(151) && Prime(331)
  {
    PrimeIf(2, 1);
    PrimeIf(3, 1);
    PrimeIf(7, 2);
    PrimeIf(11, 3);
    assert Indivisible(31, 5);
    PrimeIf(31, 5);
    assert Indivisible(151, 6) && Indivisible(151, 12);
    PrimeIf(151, 12);
    assert Indivisible(331, 6) && Indivisible(331, 12) && Indivisible(331, 18);
    PrimeIf(331, 18);
  }

  /** A seventh of the way does not lead home, and so on for every prime factor of SEEDS. */
  lemma Shares()
    ensures Home(SEEDS)
    ensures !Home(1073741823) && !Home(715827882) && !Home(306783378) && !Home(195225786)
    ensures !Home(69273666) && !Home(14221746) && !Home(6487866)
  {
    hide Draw;
    Stem1386();
    Stem31();
    Stem4681();
    Stem1549411();
    Not2();
    Not3();
    Not7();
    Not11();
    Not31();
    Not151();
    Not331();
    Plus(1073741823, 1073741823, 2147483646, 2147483646, 1);
  }

  /** Seed 1 comes again after SEEDS numbers, and not before. */
  lemma HomeIff(n: nat)
    ensures Home(n) <==> n % SEEDS == 0
  {
    hide Draw;
    Shares();
    if n % SEEDS == 0 {
      HomeTimes(SEEDS, n / SEEDS);
    }
    if Home(n) {
      AllShares(n);
    }
  }

  lemma AllShares(n: nat)
    requires Home(n)
    ensures n % SEEDS == 0
  {
    Primes();
    Shares();
    hide Draw;
    hide Home;
    hide Prime;
    Share(2, 1, 1073741823, n, n);
    Share(3, 1, 715827882, n, n);
    Share(3, 3, 715827882, n, n / 3);
    Share(7, 1, 306783378, n, n);
    Share(11, 1, 195225786, n, n);
    Share(31, 1, 69273666, n, n);
    Share(151, 1, 14221746, n, n);
    Share(331, 1, 6487866, n, n);
    Together(n);
  }

  lemma Together(n: nat)
    requires n % 2 == 0 && n % 3 == 0 && n / 3 % 3 == 0 && n % 7 == 0 && n % 11 == 0
    requires n % 31 == 0 && n % 151 == 0 && n % 331 == 0
    ensures n % SEEDS == 0
  {
    assert n % 9 == 0;
    Common(2, 9, 5, 1, n);
    Common(18, 7, 2, 5, n);
    Common(126, 11, 9, 103, n);
    Common(1386, 31, 24, 1073, n);
    Common(42966, 151, 35, 9959, n);
    Common(6487866, 331, 56, 1097645, n);
  }

  // ----------------------------------------------------------------- every seed

  /** Drawing loses nothing: equal seeds had equal pasts. */
  lemma {:induction false} DrawBack(i: nat, n: nat)
    requires Draw(1, i + n) == Draw(1, i)
    ensures Home(n)
  {
    if i > 0 {
      DrawSeed(1, i + n - 1);
      DrawSeed(1, i - 1);
      Injective(Draw(1, i + n - 1), Draw(1, i - 1));
      DrawBack(i - 1, n);
    }
  }

  lemma Different(i: nat, j: nat)
    requires i <= j < SEEDS && Draw(1, i) == Draw(1, j)
    ensures i == j
  {
    hide Draw;
    hide Home;
    DrawBack(i, j - i);
    HomeIff(j - i);
  }

  /** Every seed is drawn from seed 1 within SEEDS numbers: they are all different, and there are no others. */
  lemma Reached(t: nat) returns (k: nat)
    requires Seed(t)
    ensures k < SEEDS && Draw(1, k) == t
  {
    hide Range;
    hide Draw;
    var m := map i: nat | i in Range(0, SEEDS) :: Draw(1, i);
    forall i, j | i in m && j in m && m[i] == m[j]
      ensures i == j
    {
      if i <= j {
        Different(i, j);
      } else {
        Different(j, i);
      }
    }
    OneToOne(m);
    forall y | y in m.Values
      ensures y in Range(1, SEEDS)
    {
      var i :| i in m && m[i] == y;
      DrawSeed(1, i);
    }
    assert m.Keys == Range(0, SEEDS);
    CardSplit(m.Values, Range(1, SEEDS));
    assert Range(1, SEEDS) - m.Values == {} && t in Range(1, SEEDS);
    k :| k in m && m[k] == t;
  }

  /** A seed comes again after SEEDS numbers, and not before. */
  lemma Period(s: nat, n: nat)
    requires Seed(s)
    ensures Draw(s, n) == s <==> n % SEEDS == 0
  {
    hide Draw;
    var k := Reached(s);
    DrawAdd(1, k, n);
    HomeIff(n);
    if Draw(s, n) == s {
      DrawBack(k, n);
    }
    if Home(n) {
      DrawAdd(1, n, k);
      HomeMeans(n);
    }
  }

  lemma HomeMeans(n: nat)
    requires Home(n)
    ensures Draw(1, n) == 1
  {
  }

  /** From any seed every seed is drawn, and within SEEDS numbers exactly once. */
  lemma FullPeriod(s: nat, t: nat) returns (k: nat)
    requires Seed(s) && Seed(t)
    ensures k < SEEDS && Draw(s, k) == t
    ensures forall j: nat :: j < SEEDS && Draw(s, j) == t ==> j == k
  {
    hide Draw;
    var a := Reached(s);
    var b := Reached(t);
    if a <= b {
      k := b - a;
    } else {
      k := SEEDS + b - a;
      Period(t, SEEDS);
      DrawAdd(1, b, SEEDS);
    }
    DrawAdd(1, a, k);
    forall j: nat | j < SEEDS && Draw(s, j) == t
      ensures j == k
    {
      if j <= k {
        Once(s, j, k);
      } else {
        Once(s, k, j);
      }
    }
  }

  lemma Once(s: nat, j: nat, k: nat)
    requires Seed(s) && j <= k < SEEDS && Draw(s, j) == Draw(s, k)
    ensures j == k
  {
    hide Draw;
    DrawAdd(s, j, k - j);
    DrawSeed(s, j);
    Period(Draw(s, j), k - j);
  }
}
