/** Powers of natural numbers. */
module Powers {
  function Pow(base: nat, exponent: nat): nat {
    if exponent == 0 then 1 else base * Pow(base, exponent - 1)
  }

  lemma {:induction false} PowPositive(base: nat, exponent: nat)
    requires base > 0
    ensures Pow(base, exponent) > 0
  {
    if exponent > 0 {
      PowPositive(base, exponent - 1);
    }
  }

  lemma {:induction false} PowAdd(base: nat, first: nat, second: nat)
    ensures Pow(base, first + second) == Pow(base, first) * Pow(base, second)
  {
    if first > 0 {
      PowAdd(base, first - 1, second);
      MulAssociates(base, Pow(base, first - 1), Pow(base, second));
    }
  }

  lemma MulAssociates(a: int, b: int, c: int)
    ensures a * (b * c) == (a * b) * c
  {}

  lemma {:induction false} PowOfPow(base: nat, first: nat, second: nat)
    ensures Pow(Pow(base, first), second) == Pow(base, first * second)
  {
    if second > 0 {
      PowOfPow(base, first, second - 1);
      PowAdd(base, first, first * (second - 1));
      assert first + first * (second - 1) == first * second;
    }
  }

  lemma MulSwaps(a: int, b: int, c: int, d: int)
    ensures (a * b) * (c * d) == (a * c) * (b * d)
  {
    MulAssociates(a * b, c, d);
    MulAssociates(a, b, c);
    assert b * c == c * b;
    MulAssociates(a, c, b);
    MulAssociates(a * c, b, d);
  }

  lemma {:induction false} PowOfProduct(left: nat, right: nat, exponent: nat)
    ensures Pow(left * right, exponent) == Pow(left, exponent) * Pow(right, exponent)
  {
    if exponent > 0 {
      PowOfProduct(left, right, exponent - 1);
      var p, q := Pow(left, exponent - 1), Pow(right, exponent - 1);
      MulSwaps(left, right, p, q);
    }
  }

  lemma MulMonotone(a: nat, b: nat, c: nat, d: nat)
    requires a <= b && c <= d
    ensures a * c <= b * d
  {
    assert a * c <= b * c <= b * d;
  }

  lemma {:induction false} PowGrows(base: nat, low: nat, high: nat)
    requires base > 0 && low <= high
    ensures Pow(base, low) <= Pow(base, high)
  {
    if low < high {
      PowGrows(base, low, high - 1);
      PowPositive(base, high - 1);
      MulMonotone(1, base, Pow(base, high - 1), Pow(base, high - 1));
    }
  }

  lemma {:induction false} PowMonotone(low: nat, high: nat, exponent: nat)
    requires low <= high
    ensures Pow(low, exponent) <= Pow(high, exponent)
  {
    if exponent > 0 {
      PowMonotone(low, high, exponent - 1);
      MulMonotone(low, high, Pow(low, exponent - 1), Pow(high, exponent - 1));
    }
  }

  /** Roots compare like powers. */
  lemma PowReflects(left: nat, right: nat, exponent: nat)
    requires Pow(left, exponent) < Pow(right, exponent)
    ensures left < right
  {
    if right <= left {
      PowMonotone(right, left, exponent);
    }
  }

  // ---- Powers of two against powers of ten ----

  lemma PowSum(base: nat, first: nat, firstPower: nat, second: nat, secondPower: nat, sum: nat, power: nat)
    requires Pow(base, first) == firstPower && Pow(base, second) == secondPower
    requires first + second == sum && firstPower * secondPower == power
    ensures Pow(base, sum) == power
  {
    PowAdd(base, first, second);
  }

  lemma FiveTo146()
    ensures Pow(5, 146) == 1121038771459853656738983666631932905024209553501212617405654627111832866148688481189310550689697265625
  {
    assert Pow(5, 1) == 5;
    assert Pow(5, 4) == 625;
    PowSum(5, 4, 625, 4, 625, 8, 390625);
    PowSum(5, 8, 390625, 1, 5, 9, 1953125);
    PowSum(5, 9, 1953125, 9, 1953125, 18, 3814697265625);
    PowSum(5, 18, 3814697265625, 18, 3814697265625, 36, 14551915228366851806640625);
    PowSum(5,
      36, 14551915228366851806640625,
      36, 14551915228366851806640625,
      72, 211758236813575084767080625169910490512847900390625);
    PowSum(5,
      72, 211758236813575084767080625169910490512847900390625,
      1, 5,
      73, 1058791184067875423835403125849552452564239501953125);
    PowSum(5,
      73, 1058791184067875423835403125849552452564239501953125,
      73, 1058791184067875423835403125849552452564239501953125,
      146, 1121038771459853656738983666631932905024209553501212617405654627111832866148688481189310550689697265625);
  }

  lemma FiveTo351()
    ensures Pow(5, 351) == 218007543808417316859394750271862213030225752796706897967362564702536132031772269377793888446840673379742251272845082899517162582833083868241508921319969414132216266131608059121791046085920720322728669324403860674266297792200930416584014892578125
  {
    assert Pow(5, 1) == 5;
    assert Pow(5, 2) == 25;
    PowSum(5, 2, 25, 2, 25, 4, 625);
    PowSum(5, 4, 625, 1, 5, 5, 3125);
    PowSum(5, 5, 3125, 5, 3125, 10, 9765625);
    PowSum(5, 10, 9765625, 10, 9765625, 20, 95367431640625);
    PowSum(5, 20, 95367431640625, 1, 5, 21, 476837158203125);
    PowSum(5, 21, 476837158203125, 21, 476837158203125, 42, 227373675443232059478759765625);
    PowSum(5, 42, 227373675443232059478759765625, 1, 5, 43, 1136868377216160297393798828125);
    PowSum(5,
      43, 1136868377216160297393798828125,
      43, 1136868377216160297393798828125,
      86, 1292469707114105741986576081359316958696581423282623291015625);
    PowSum(5,
      86, 1292469707114105741986576081359316958696581423282623291015625,
      1, 5,
      87, 6462348535570528709932880406796584793482907116413116455078125);
    PowSum(5,
      87, 6462348535570528709932880406796584793482907116413116455078125,
      87, 6462348535570528709932880406796584793482907116413116455078125,
      174,
      41761948595190556970945882299241904356487451251641385905655273315006228765423911854226535211864757002331316471099853515625);
    PowSum(5,
      174,
      41761948595190556970945882299241904356487451251641385905655273315006228765423911854226535211864757002331316471099853515625,
      1, 5,
      175,
      208809742975952784854729411496209521782437256258206929528276366575031143827119559271132676059323785011656582355499267578125);
    PowSum(5,
      175,
      208809742975952784854729411496209521782437256258206929528276366575031143827119559271132676059323785011656582355499267578125,
      175,
      208809742975952784854729411496209521782437256258206929528276366575031143827119559271132676059323785011656582355499267578125,
      350,
      43601508761683463371878950054372442606045150559341379593472512940507226406354453875558777689368134675948450254569016579903432516566616773648301784263993882826443253226321611824358209217184144064545733864880772134853259558440186083316802978515625);
    PowSum(5,
      350,
      43601508761683463371878950054372442606045150559341379593472512940507226406354453875558777689368134675948450254569016579903432516566616773648301784263993882826443253226321611824358209217184144064545733864880772134853259558440186083316802978515625,
      1, 5,
      351,
      218007543808417316859394750271862213030225752796706897967362564702536132031772269377793888446840673379742251272845082899517162582833083868241508921319969414132216266131608059121791046085920720322728669324403860674266297792200930416584014892578125);
  }

  lemma TwoTo339()
    ensures Pow(2, 339) == 1119872371088902105278721140284222139060822748617324767449994550481895935590080472690438746635803557888
  {
    assert Pow(2, 1) == 2;
    assert Pow(2, 2) == 4;
    PowSum(2, 2, 4, 2, 4, 4, 16);
    PowSum(2, 4, 16, 1, 2, 5, 32);
    PowSum(2, 5, 32, 5, 32, 10, 1024);
    PowSum(2, 10, 1024, 10, 1024, 20, 1048576);
    PowSum(2, 20, 1048576, 1, 2, 21, 2097152);
    PowSum(2, 21, 2097152, 21, 2097152, 42, 4398046511104);
    PowSum(2, 42, 4398046511104, 42, 4398046511104, 84, 19342813113834066795298816);
    PowSum(2,
      84, 19342813113834066795298816,
      84, 19342813113834066795298816,
      168, 374144419156711147060143317175368453031918731001856);
    PowSum(2,
      168, 374144419156711147060143317175368453031918731001856,
      1, 2,
      169, 748288838313422294120286634350736906063837462003712);
    PowSum(2,
      169, 748288838313422294120286634350736906063837462003712,
      169, 748288838313422294120286634350736906063837462003712,
      338, 559936185544451052639360570142111069530411374308662383724997275240947967795040236345219373317901778944);
    PowSum(2,
      338, 559936185544451052639360570142111069530411374308662383724997275240947967795040236345219373317901778944,
      1, 2,
      339, 1119872371088902105278721140284222139060822748617324767449994550481895935590080472690438746635803557888);
  }

  lemma TwoTo815()
    ensures Pow(2, 815) == 218497496936607064853048583478354175496839440705647678599864575975883972208808167719614290358159090999064327310325620422930884252602183354953346451122776638950446123565515229051718149272758321962318725648740732173736042431692028683588857933856768
  {
    assert Pow(2, 1) == 2;
    assert Pow(2, 3) == 8;
    PowSum(2, 3, 8, 3, 8, 6, 64);
    PowSum(2, 6, 64, 6, 64, 12, 4096);
    PowSum(2, 12, 4096, 12, 4096, 24, 16777216);
    PowSum(2, 24, 16777216, 1, 2, 25, 33554432);
    PowSum(2, 25, 33554432, 25, 33554432, 50, 1125899906842624);
    PowSum(2, 50, 1125899906842624, 50, 1125899906842624, 100, 1267650600228229401496703205376);
    PowSum(2, 100, 1267650600228229401496703205376, 1, 2, 101, 2535301200456458802993406410752);
    PowSum(2,
      101, 2535301200456458802993406410752,
      101, 2535301200456458802993406410752,
      202, 6427752177035961102167848369364650410088811975131171341205504);
    PowSum(2,
      202, 6427752177035961102167848369364650410088811975131171341205504,
      1, 2,
      203, 12855504354071922204335696738729300820177623950262342682411008);
    PowSum(2,
      203, 12855504354071922204335696738729300820177623950262342682411008,
      203, 12855504354071922204335696738729300820177623950262342682411008,
      406,
      165263992197562149737978827008192759957101170741070304821162198818601447809077836456297302609928821211897803006255839576064);
    PowSum(2,
      406,
      165263992197562149737978827008192759957101170741070304821162198818601447809077836456297302609928821211897803006255839576064,
      1, 2,
      407,
      330527984395124299475957654016385519914202341482140609642324397637202895618155672912594605219857642423795606012511679152128);
    PowSum(2,
      407,
      330527984395124299475957654016385519914202341482140609642324397637202895618155672912594605219857642423795606012511679152128,
      407,
      330527984395124299475957654016385519914202341482140609642324397637202895618155672912594605219857642423795606012511679152128,
      814,
      109248748468303532426524291739177087748419720352823839299932287987941986104404083859807145179079545499532163655162810211465442126301091677476673225561388319475223061782757614525859074636379160981159362824370366086868021215846014341794428966928384);
    PowSum(2,
      814,
      109248748468303532426524291739177087748419720352823839299932287987941986104404083859807145179079545499532163655162810211465442126301091677476673225561388319475223061782757614525859074636379160981159362824370366086868021215846014341794428966928384,
      1, 2,
      815,
      218497496936607064853048583478354175496839440705647678599864575975883972208808167719614290358159090999064327310325620422930884252602183354953346451122776638950446123565515229051718149272758321962318725648740732173736042431692028683588857933856768);
  }

  lemma FiveTo323()
    ensures Pow(5, 323) == 5852095443365247908944811767323345712393779173492729145421444317325479095842499561858293871924080791803817238289275024548969171774893664005765336542259411158863431768965556536363293899279114373968013751436956226825714111328125
  {
    assert Pow(5, 1) == 5;
    assert Pow(5, 2) == 25;
    PowSum(5, 2, 25, 2, 25, 4, 625);
    PowSum(5, 4, 625, 1, 5, 5, 3125);
    PowSum(5, 5, 3125, 5, 3125, 10, 9765625);
    PowSum(5, 10, 9765625, 10, 9765625, 20, 95367431640625);
    PowSum(5, 20, 95367431640625, 20, 95367431640625, 40, 9094947017729282379150390625);
    PowSum(5,
      40, 9094947017729282379150390625,
      40, 9094947017729282379150390625,
      80, 82718061255302767487140869206996285356581211090087890625);
    PowSum(5,
      80, 82718061255302767487140869206996285356581211090087890625,
      80, 82718061255302767487140869206996285356581211090087890625,
      160,
      6842277657836020854119773355907793609766904013068924666782559979930620520927053718196475529111921787261962890625);
    PowSum(5,
      160,
      6842277657836020854119773355907793609766904013068924666782559979930620520927053718196475529111921787261962890625,
      1, 5,
      161,
      34211388289180104270598866779538968048834520065344623333912799899653102604635268590982377645559608936309814453125);
    PowSum(5,
      161,
      34211388289180104270598866779538968048834520065344623333912799899653102604635268590982377645559608936309814453125,
      161,
      34211388289180104270598866779538968048834520065344623333912799899653102604635268590982377645559608936309814453125,
      322,
      1170419088673049581788962353464669142478755834698545829084288863465095819168499912371658774384816158360763447657855004909793834354978732801153067308451882231772686353793111307272658779855822874793602750287391245365142822265625);
    PowSum(5,
      322,
      1170419088673049581788962353464669142478755834698545829084288863465095819168499912371658774384816158360763447657855004909793834354978732801153067308451882231772686353793111307272658779855822874793602750287391245365142822265625,
      1, 5,
      323,
      5852095443365247908944811767323345712393779173492729145421444317325479095842499561858293871924080791803817238289275024548969171774893664005765336542259411158863431768965556536363293899279114373968013751436956226825714111328125);
  }

  lemma TwoTo751()
    ensures Pow(2, 751) == 11844773043065711480323635013294239465766037117894719018089691452225120183459296312949206610325977157215024800850914559983608856537741198665193842125253152001987113769690322155382272992184436377145866387891513586051123404341248
  {
    assert Pow(2, 1) == 2;
    assert Pow(2, 2) == 4;
    PowSum(2, 2, 4, 2, 4, 4, 16);
    PowSum(2, 4, 16, 1, 2, 5, 32);
    PowSum(2, 5, 32, 5, 32, 10, 1024);
    PowSum(2, 10, 1024, 1, 2, 11, 2048);
    PowSum(2, 11, 2048, 11, 2048, 22, 4194304);
    PowSum(2, 22, 4194304, 1, 2, 23, 8388608);
    PowSum(2, 23, 8388608, 23, 8388608, 46, 70368744177664);
    PowSum(2, 46, 70368744177664, 46, 70368744177664, 92, 4951760157141521099596496896);
    PowSum(2, 92, 4951760157141521099596496896, 1, 2, 93, 9903520314283042199192993792);
    PowSum(2,
      93, 9903520314283042199192993792,
      93, 9903520314283042199192993792,
      186, 98079714615416886934934209737619787751599303819750539264);
    PowSum(2,
      186, 98079714615416886934934209737619787751599303819750539264,
      1, 2,
      187, 196159429230833773869868419475239575503198607639501078528);
    PowSum(2,
      187, 196159429230833773869868419475239575503198607639501078528,
      187, 196159429230833773869868419475239575503198607639501078528,
      374,
      38478521676166483605741250097796497856523182881313912761668255277583712667477744737709244389536050430475222646784);
    PowSum(2,
      374,
      38478521676166483605741250097796497856523182881313912761668255277583712667477744737709244389536050430475222646784,
      1, 2,
      375,
      76957043352332967211482500195592995713046365762627825523336510555167425334955489475418488779072100860950445293568);
    PowSum(2,
      375,
      76957043352332967211482500195592995713046365762627825523336510555167425334955489475418488779072100860950445293568,
      375,
      76957043352332967211482500195592995713046365762627825523336510555167425334955489475418488779072100860950445293568,
      750,
      5922386521532855740161817506647119732883018558947359509044845726112560091729648156474603305162988578607512400425457279991804428268870599332596921062626576000993556884845161077691136496092218188572933193945756793025561702170624);
    PowSum(2,
      750,
      5922386521532855740161817506647119732883018558947359509044845726112560091729648156474603305162988578607512400425457279991804428268870599332596921062626576000993556884845161077691136496092218188572933193945756793025561702170624,
      1, 2,
      751,
      11844773043065711480323635013294239465766037117894719018089691452225120183459296312949206610325977157215024800850914559983608856537741198665193842125253152001987113769690322155382272992184436377145866387891513586051123404341248);
  }

  lemma TenSplits(exponent: nat)
    ensures Pow(10, exponent) == Pow(2, exponent) * Pow(5, exponent)
  {
    PowOfProduct(2, 5, exponent);
  }

  /** log10(2) < 146 / 485. */
  lemma TwoTo485()
    ensures Pow(2, 485) < Pow(10, 146)
  {
    FiveTo146();
    TwoTo339();
    PowAdd(2, 146, 339);
    TenSplits(146);
    PowPositive(2, 146);
    MulStrict(Pow(2, 146), Pow(2, 339), Pow(5, 146));
  }

  /** 351 / 1166 < log10(2). */
  lemma TenTo351()
    ensures Pow(10, 351) < Pow(2, 1166)
  {
    FiveTo351();
    TwoTo815();
    PowAdd(2, 351, 815);
    TenSplits(351);
    PowPositive(2, 351);
    MulStrict(Pow(2, 351), Pow(5, 351), Pow(2, 815));
  }

  lemma MulStrict(factor: nat, low: nat, high: nat)
    requires 0 < factor && low < high
    ensures factor * low < factor * high
  {}
}
