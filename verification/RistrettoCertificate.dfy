/**
 A primality certificate for the Ristretto group order, checked on literals: for each number of
 the chain, repeated squaring of a base of known order (PrimeByOrder in Primality.dfy). Every step
 gives the reduced square and the quotient.
 */
module RistrettoCertificate {
  import opened Primality

  const RISTRETTO_ORDER: int :=
    7237005577332262213973186563042994240857116359379907606001950938285454250989

  lemma PowerH1(b: nat, n: nat) returns (e: nat)
    requires b == 32301 && n == 531581
    ensures e == 3797 && PowIs(b, e, n, 1)
  {
    hide PowIs;
    PowOne(b, n);
    e := 1;
    e := SquareTimes(b, e, n, 32301, 401719, 63398422);
    e := SquareTimes(b, e, n, 401719, 129495, 9805985886);
    e := Square(b, e, n, 129495, 232380, 31545);
    e := SquareTimes(b, e, n, 232380, 319531, 3281285449);
    e := SquareTimes(b, e, n, 319531, 305291, 6204010370);
    e := Square(b, e, n, 305291, 497951, 175330);
    e := SquareTimes(b, e, n, 497951, 68714, 15066755327);
    e := Square(b, e, n, 68714, 111354, 8882);
    e := SquareTimes(b, e, n, 111354, 293694, 753456462);
    e := Square(b, e, n, 293694, 237833, 162263);
    e := SquareTimes(b, e, n, 237833, 1, 3437088748);
  }

  lemma PrimeH()
    ensures IsPrime(531581)
  {
    hide PowIs, IsPrime;
    var e0 := PowerH1(32301, 531581);
    PowOne(32301, 531581);
    assert NoDivisorUpTo(3797, 10) && NoDivisorUpTo(3797, 20) && NoDivisorUpTo(3797, 30) && NoDivisorUpTo(3797, 40) && NoDivisorUpTo(3797, 50) && NoDivisorUpTo(3797, 60) && NoDivisorUpTo(3797, 61);
    TrialDivision(3797, 61);
    PrimeByOrder(531581, 32301, 3797, 1,
      32301, 50673, 3079, 0, 0, 0);
  }

  lemma PowerG1(b: nat, n: nat) returns (e: nat)
    requires b == 921659 && n == 1224481
    ensures e == 2551 && PowIs(b, e, n, 1)
  {
    hide PowIs;
    PowOne(b, n);
    e := 1;
    e := Square(b, e, n, 921659, 1006075, 693726);
    e := Square(b, e, n, 1006075, 299000, 826625);
    e := SquareTimes(b, e, n, 299000, 1085945, 67291559655);
    e := SquareTimes(b, e, n, 1085945, 301728, 887633894987);
    e := SquareTimes(b, e, n, 301728, 886815, 68525063361);
    e := SquareTimes(b, e, n, 886815, 864370, 591948982505);
    e := SquareTimes(b, e, n, 864370, 354866, 562364099514);
    e := Square(b, e, n, 354866, 578473, 102843);
    e := SquareTimes(b, e, n, 578473, 774887, 251874617604);
    e := SquareTimes(b, e, n, 774887, 75479, 451954762932);
    e := SquareTimes(b, e, n, 75479, 1, 4288155178);
  }

  lemma PrimeG()
    ensures IsPrime(1224481)
  {
    hide PowIs, IsPrime;
    var e0 := PowerG1(921659, 1224481);
    PowOne(921659, 1224481);
    assert NoDivisorUpTo(2551, 10) && NoDivisorUpTo(2551, 20) && NoDivisorUpTo(2551, 30) && NoDivisorUpTo(2551, 40) && NoDivisorUpTo(2551, 50);
    TrialDivision(2551, 50);
    PrimeByOrder(1224481, 921659, 2551, 1,
      921659, 1100631, 828437, 0, 0, 0);
  }

  lemma PowerE1(b: nat, n: nat) returns (e: nat)
    requires b == 896025394887893 && n == 1257559732178653
    ensures e == 650910834461 && PowIs(b, e, n, 1)
  {
    hide PowIs;
    PowOne(b, n);
    e := 1;
    e := Square(b, e, n, 896025394887893, 1054499437575502, 638428130084199);
    e := Square(b, e, n, 1054499437575502, 702990646063706, 884227631812466);
    e := SquareTimes(b, e, n, 702990646063706, 421547746255874, 352120077425641647841618815258);
    e := Square(b, e, n, 421547746255874, 959737177506496, 141307404989460);
    e := SquareTimes(b, e, n, 959737177506496, 1103325372773744, 656290825077253400535182570448);
    e := SquareTimes(b, e, n, 1103325372773744, 439636530432672, 867359035791318299635121319392);
    e := SquareTimes(b, e, n, 439636530432672, 796533744217188, 137714363608962732532335621708);
    e := SquareTimes(b, e, n, 796533744217188, 1106601663938572, 452064135589389453540648395540);
    e := Square(b, e, n, 1106601663938572, 1144420733830916, 973764673992956);
    e := Square(b, e, n, 1144420733830916, 42209689661540, 1041460522716572);
    e := Square(b, e, n, 42209689661540, 81959943494077, 1416758071791);
    e := SquareTimes(b, e, n, 81959943494077, 394085774905137, 4786245781312056110153845820);
    e := SquareTimes(b, e, n, 394085774905137, 1098790789546217, 110655553091521022079266717500);
    e := Square(b, e, n, 1098790789546217, 896771039588868, 960066681763057);
    e := SquareTimes(b, e, n, 896771039588868, 1178620066153769, 573000294616802423929537935571);
    e := Square(b, e, n, 1178620066153769, 757155464443584, 1104635608786309);
    e := SquareTimes(b, e, n, 757155464443584, 520544655497108, 408471554362541279903103358300);
    e := Square(b, e, n, 520544655497108, 60189630030092, 215470272650324);
    e := Square(b, e, n, 60189630030092, 998940193608617, 2880810724499);
    e := SquareTimes(b, e, n, 998940193608617, 2527692038512, 711001753264294639705890312505);
    e := SquareTimes(b, e, n, 2527692038512, 897917745548533, 4552395831744214414749703);
    e := SquareTimes(b, e, n, 897917745548533, 1154951228303138, 574466628649920100095186563463);
    e := SquareTimes(b, e, n, 1154951228303138, 558935312250886, 950427483001284039764301841702);
    e := Square(b, e, n, 558935312250886, 284739755210771, 248424528304325);
    e := Square(b, e, n, 284739755210771, 998933421834768, 64471472903341);
    e := Square(b, e, n, 998933421834768, 758467228987630, 793495494269498);
    e := SquareTimes(b, e, n, 758467228987630, 828884060796368, 409888126460725878504571268244);
    e := SquareTimes(b, e, n, 828884060796368, 384657946206292, 489529955713092056432100058780);
    e := SquareTimes(b, e, n, 384657946206292, 666567661410520, 105424393894486525275373011544);
    e := SquareTimes(b, e, n, 666567661410520, 737983338527919, 316577595324702282508600011077);
    e := SquareTimes(b, e, n, 737983338527919, 548396246226160, 388047428349141675026985211721);
    e := Square(b, e, n, 548396246226160, 984691547294041, 239144459845203);
    e := Square(b, e, n, 984691547294041, 158749485773686, 771030924815415);
    e := Square(b, e, n, 158749485773686, 320562344095133, 20039922230771);
    e := SquareTimes(b, e, n, 320562344095133, 518585935525370, 73217805221421333265567551519);
    e := SquareTimes(b, e, n, 518585935525370, 1003461690385758, 191616615177986066055558441614);
    e := SquareTimes(b, e, n, 1003461690385758, 325405388121644, 717452725411282660943644718536);
    e := Square(b, e, n, 325405388121644, 121212543740126, 84201699457370);
    e := SquareTimes(b, e, n, 121212543740126, 1, 10468557109419662099146390639);
  }

  lemma PowerTE1(b: nat, n: nat) returns (e: nat)
    requires b == 896025394887893 && n == 1257559732178653
    ensures e == 531581 && PowIs(b, e, n, 1252739704402215)
  {
    hide PowIs;
    PowOne(b, n);
    e := 1;
    e := Square(b, e, n, 896025394887893, 1054499437575502, 638428130084199);
    e := Square(b, e, n, 1054499437575502, 702990646063706, 884227631812466);
    e := Square(b, e, n, 702990646063706, 1090861615079504, 392980019801444);
    e := Square(b, e, n, 1090861615079504, 799682207835040, 946260470023392);
    e := Square(b, e, n, 799682207835040, 984234580166841, 508517899519603);
    e := Square(b, e, n, 984234580166841, 268430577430870, 770315464155287);
    e := SquareTimes(b, e, n, 268430577430870, 74631756278107, 51339976691557628730897175981);
    e := SquareTimes(b, e, n, 74631756278107, 1146628502373477, 3968615457155469867953545160);
    e := SquareTimes(b, e, n, 1146628502373477, 622377837252766, 936779033615869163414529812027);
    e := Square(b, e, n, 622377837252766, 52463645144342, 308020495879238);
    e := Square(b, e, n, 52463645144342, 243879194117939, 2188710397925);
    e := Square(b, e, n, 243879194117939, 277578517246185, 47295615310912);
    e := SquareTimes(b, e, n, 277578517246185, 512644134293054, 54898869203021338885320713107);
    e := SquareTimes(b, e, n, 512644134293054, 227913030386330, 187250799625433518030429187586);
    e := SquareTimes(b, e, n, 227913030386330, 534978130226260, 37010930781402216408138616480);
    e := SquareTimes(b, e, n, 534978130226260, 969102788335822, 203921845566995404347326882026);
    e := SquareTimes(b, e, n, 969102788335822, 398785412843792, 669162172103970382639708976340);
    e := Square(b, e, n, 398785412843792, 283628601019286, 126459047175026);
    e := SquareTimes(b, e, n, 283628601019286, 1252739704402215, 57318094165445779347680990321);
  }

  lemma PowerSE1(b: nat, n: nat) returns (e: nat)
    requires b == 896025394887893 && n == 1257559732178653
    ensures e == 1224481 && PowIs(b, e, n, 1139842034583224)
  {
    hide PowIs;
    PowOne(b, n);
    e := 1;
    e := Square(b, e, n, 896025394887893, 1054499437575502, 638428130084199);
    e := Square(b, e, n, 1054499437575502, 702990646063706, 884227631812466);
    e := SquareTimes(b, e, n, 702990646063706, 421547746255874, 352120077425641647841618815258);
    e := Square(b, e, n, 421547746255874, 959737177506496, 141307404989460);
    e := SquareTimes(b, e, n, 959737177506496, 1103325372773744, 656290825077253400535182570448);
    e := Square(b, e, n, 1103325372773744, 1142326534018513, 968007202407291);
    e := SquareTimes(b, e, n, 1142326534018513, 634180503043411, 929762927176775427582022075402);
    e := Square(b, e, n, 634180503043411, 354232105446919, 319813763234634);
    e := SquareTimes(b, e, n, 354232105446919, 832361264641104, 89406179461405663180725540473);
    e := SquareTimes(b, e, n, 832361264641104, 774519633913830, 493645768565320130493426613986);
    e := SquareTimes(b, e, n, 774519633913830, 241838292620443, 427421691774378345798902023469);
    e := SquareTimes(b, e, n, 241838292620443, 14639074590403, 41671758930471012575385102418);
    e := Square(b, e, n, 14639074590403, 1145832418951856, 170411392301);
    e := Square(b, e, n, 1145832418951856, 355197527602092, 1044031467234148);
    e := SquareTimes(b, e, n, 355197527602092, 810854764709287, 89894177731105960326475452605);
    e := Square(b, e, n, 810854764709287, 214252104824135, 522826417408178);
    e := Square(b, e, n, 214252104824135, 917812438963475, 36502412765750);
    e := Square(b, e, n, 917812438963475, 1235796521145358, 669852613407639);
    e := Square(b, e, n, 1235796521145358, 152553792118538, 1214409942205442);
    e := SquareTimes(b, e, n, 152553792118538, 1139842034583224, 16582030559506493690600950956);
  }

  lemma PrimeE()
    ensures IsPrime(1257559732178653)
  {
    hide PowIs, IsPrime;
    var e0 := PowerE1(896025394887893, 1257559732178653);
    var e1 := PowerTE1(896025394887893, 1257559732178653);
    var e2 := PowerSE1(896025394887893, 1257559732178653);
    PrimeG();
    PrimeH();
    PrimeByOrder(1257559732178653, 896025394887893, 1224481, 531581,
      1252739704402215, 790900187493841, 787868792026441, 1139842034583224, 212927577457398, 192995844966701);
  }

  lemma PowerD1(b: nat, n: nat) returns (e: nat)
    requires b == 415787812636281767 && n == 4434155615661930479
    ensures e == 1228085675955 && PowIs(b, e, n, 1138951241107191630)
  {
    hide PowIs;
    PowOne(b, n);
    e := 1;
    e := Square(b, e, n, 415787812636281767, 3100996284172897299, 38988145685783810);
    e := Square(b, e, n, 3100996284172897299, 1773242256918920821, 2168660459386835020);
    e := Square(b, e, n, 1773242256918920821, 1145512105644223272, 709128946809304511);
    e := SquareTimes(b, e, n, 1145512105644223272, 191371067995100572, 123043929189083889921236507320897564);
    e := SquareTimes(b, e, n, 191371067995100572, 3407277681003375638, 3434103546013970114309344888970310);
    e := SquareTimes(b, e, n, 3407277681003375638, 214101093313304956, 1088618929458135994873350406977357248);
    e := Square(b, e, n, 214101093313304956, 2838087264384559642, 10337769381850986);
    e := SquareTimes(b, e, n, 2838087264384559642, 2678802059063434682, 755287530166478129472901229593723614);
    e := SquareTimes(b, e, n, 2678802059063434682, 1441625947344711542, 672886899432712675484076901955115354);
    e := SquareTimes(b, e, n, 1441625947344711542, 1677242294580461517, 194879432248520151835142600438226049);
    e := SquareTimes(b, e, n, 1677242294580461517, 2025415758172895046, 263786421043020305721528087955110423);
    e := Square(b, e, n, 2025415758172895046, 3519255193000228959, 925161259330924683);
    e := SquareTimes(b, e, n, 3519255193000228959, 121430195211088833, 1161347916426948445583314730243001786);
    e := SquareTimes(b, e, n, 121430195211088833, 4159545457389586954, 1382656218511578420549839286421171);
    e := SquareTimes(b, e, n, 4159545457389586954, 3110892756709774055, 1622379964921300815247878160440432123);
    e := SquareTimes(b, e, n, 3110892756709774055, 864418649578486459, 907467132491284966632620465153099204);
    e := SquareTimes(b, e, n, 864418649578486459, 660551860479302489, 70066283345735162934026372660959722);
    e := Square(b, e, n, 660551860479302489, 701885220790377089, 98401769852529808);
    e := Square(b, e, n, 701885220790377089, 535505810993778699, 111101843477005418);
    e := SquareTimes(b, e, n, 535505810993778699, 161541514745606027, 26889900836539451354280653533392860);
    e := SquareTimes(b, e, n, 161541514745606027, 637840665186367947, 2446972713918594122750566532887324);
    e := SquareTimes(b, e, n, 637840665186367947, 2501186697341811662, 38149182233640991462798914089332079);
    e := Square(b, e, n, 2501186697341811662, 1075468136614072462, 1410851453400278058);
    e := Square(b, e, n, 1075468136614072462, 2202897038630886285, 260845990336196921);
    e := Square(b, e, n, 2202897038630886285, 551760777331345475, 1094403485901184250);
    e := SquareTimes(b, e, n, 551760777331345475, 1755561346417838566, 28547131428650498098419711496789271);
    e := Square(b, e, n, 1755561346417838566, 4085330917847097921, 695058069263618765);
    e := Square(b, e, n, 4085330917847097921, 4057194569041517808, 3763947446807398527);
    e := Square(b, e, n, 4057194569041517808, 3603580345089794133, 3712280126777353989);
    e := SquareTimes(b, e, n, 3603580345089794133, 3540191439498418012, 1217668983553426967515903860374584669);
    e := SquareTimes(b, e, n, 3540191439498418012, 1535460892319864632, 1175206865765825099566485837163596104);
    e := SquareTimes(b, e, n, 1535460892319864632, 846233425539415078, 221074343502090553616403939125886470);
    e := SquareTimes(b, e, n, 846233425539415078, 3904290686882816099, 67149251507758845704267740485308151);
    e := Square(b, e, n, 3904290686882816099, 458810682590901301, 3437742625414003500);
    e := SquareTimes(b, e, n, 458810682590901301, 1242140138381043163, 19739123628676925341986390162421676);
    e := SquareTimes(b, e, n, 1242140138381043163, 3572748445503422236, 144677840038609528776152294675560253);
    e := Square(b, e, n, 3572748445503422236, 1878626325531317407, 2878683691154495391);
    e := Square(b, e, n, 1878626325531317407, 2223371858888708539, 795920841955488090);
    e := SquareTimes(b, e, n, 2223371858888708539, 850405745392977898, 463537670482651446511278409914507371);
    e := SquareTimes(b, e, n, 850405745392977898, 1138951241107191630, 67813037233184597873774342696286322);
  }

  lemma PowerD2(b: nat, n: nat) returns (e: nat)
    requires b == 415787812636281767 && n == 4434155615661930479
    ensures e == 1257559732178653 && PowIs(b, e, n, 1)
  {
    hide PowIs;
    e := PowerD1(b, n);
    e := SquareTimes(b, e, n, 1138951241107191630, 4391060440194520683, 121638509316522334586178173619051423);
    e := Square(b, e, n, 4391060440194520683, 1072781130921906861, 4348384103015511732);
    e := SquareTimes(b, e, n, 1072781130921906861, 304295795678854238, 107915313598816145199743658855795311);
    e := SquareTimes(b, e, n, 304295795678854238, 4417639776943714551, 8682658674603589206256131005683243);
    e := Square(b, e, n, 4417639776943714551, 3046186254313109970, 4401185454543871089);
    e := SquareTimes(b, e, n, 3046186254313109970, 1059822737060017179, 870109144602833881660094425616328399);
    e := SquareTimes(b, e, n, 1059822737060017179, 1841445610388449610, 105323986758816742325499788305070603);
    e := SquareTimes(b, e, n, 1841445610388449610, 2525937638201312080, 317964486771222524949729313693325780);
    e := Square(b, e, n, 2525937638201312080, 3809079382358566196, 1438912276679212276);
    e := SquareTimes(b, e, n, 3809079382358566196, 1, 1360507286289153684396277735482600449);
  }

  lemma PrimeD()
    ensures IsPrime(4434155615661930479)
  {
    hide PowIs, IsPrime;
    var e0 := PowerD2(415787812636281767, 4434155615661930479);
    PowOne(415787812636281767, 4434155615661930479);
    PrimeE();
    PrimeByOrder(4434155615661930479, 415787812636281767, 1257559732178653, 1,
      415787812636281767, 1010501025739283171, 94754006754933215, 0, 0, 0);
  }

  lemma PowerC1(b: nat, n: nat) returns (e: nat)
    requires b == 81982237619807054769897707 && n == 172054593956031949258510691
    ensures e == 2114370162802 && PowIs(b, e, n, 2996541156987094628609952)
  {
    hide PowIs;
    PowOne(b, n);
    e := 1;
    e := SquareTimes(b, e, n, 81982237619807054769897707, 153579152715501658428629531, 3202528698626214614222241440684805817675077310726632);
    e := SquareTimes(b, e, n, 153579152715501658428629531, 167814721527529465849429569, 11238750482413283939773048719713712705013638358289638);
    e := SquareTimes(b, e, n, 167814721527529465849429569, 48289058518399576327659775, 13418797772786643177678700232367013337893853777105572);
    e := Square(b, e, n, 48289058518399576327659775, 59794813390092532697763188, 13552867836759487319478607);
    e := SquareTimes(b, e, n, 59794813390092532697763188, 154289148141410286668792477, 1703650576141478352272442975352591774549697535015441);
    e := SquareTimes(b, e, n, 154289148141410286668792477, 144826008405472798401045507, 11342904018791528282054862781550962772252869873305856);
    e := Square(b, e, n, 144826008405472798401045507, 159032709990148984649131256, 121906496237014564497468923);
    e := Square(b, e, n, 159032709990148984649131256, 79683857455852187904478325, 146996382167360070926361721);
    e := Square(b, e, n, 79683857455852187904478325, 159143041489193602642851483, 36904083715818543859524362);
    e := SquareTimes(b, e, n, 159143041489193602642851483, 52535660307367689004073594, 12067819410483390252188970846466886216954561063629619);
    e := Square(b, e, n, 52535660307367689004073594, 8105645884430937486288908, 16041394422961108190086408);
    e := Square(b, e, n, 8105645884430937486288908, 140725908371461146638676219, 381864230957890148886695);
    e := SquareTimes(b, e, n, 140725908371461146638676219, 102092554157199242347225069, 9436297316502891426812466980170523160368124359251138);
    e := Square(b, e, n, 102092554157199242347225069, 93565392158498993608176584, 60578967260846283519112747);
    e := SquareTimes(b, e, n, 93565392158498993608176584, 151096039430635142899575208, 4171420576752200586765845584242689021731464238050824);
    e := Square(b, e, n, 151096039430635142899575208, 170741126879681559209576644, 132690517624064099618900820);
    e := Square(b, e, n, 170741126879681559209576644, 164598567888031770776243655, 169437686828596750329128291);
    e := SquareTimes(b, e, n, 164598567888031770776243655, 127561181206595508224978510, 12909386372432314411296592688316255895044580903104815);
    e := Square(b, e, n, 127561181206595508224978510, 72855311472385651364577984, 94573789497187853380165676);
    e := Square(b, e, n, 72855311472385651364577984, 151215453489527611882818370, 30850070827488313313375146);
    e := SquareTimes(b, e, n, 151215453489527611882818370, 47214200796341353487635316, 10895466938542389301261717753643995168901256844760424);
    e := Square(b, e, n, 47214200796341353487635316, 150228514182530418758034487, 12956240839502961208240659);
    e := Square(b, e, n, 150228514182530418758034487, 70825796587000559605299352, 131171193715746322205540787);
    e := Square(b, e, n, 70825796587000559605299352, 56450327217502615080565348, 29155242803136539978118516);
    e := Square(b, e, n, 56450327217502615080565348, 33022382191202836601619314, 18521094785632128904015690);
    e := SquareTimes(b, e, n, 33022382191202836601619314, 14589050751940438539000744, 519601377459328388224995332738547839579441686768108);
    e := Square(b, e, n, 14589050751940438539000744, 57552129677221337611619651, 1237051548284055817736735);
    e := SquareTimes(b, e, n, 57552129677221337611619651, 29328758471794249968821001, 1578251798142350573131667889019661750354079040080766);
    e := Square(b, e, n, 29328758471794249968821001, 40934084723838682207140931, 4999436828270092462559770);
    e := Square(b, e, n, 40934084723838682207140931, 136243923403916848434769691, 9738765200344478370995770);
    e := Square(b, e, n, 136243923403916848434769691, 83194925161226630722618572, 107886725007970029302043599);
    e := Square(b, e, n, 83194925161226630722618572, 151918532565301665696193658, 40227903326724553618307186);
    e := Square(b, e, n, 151918532565301665696193658, 114022955710911814312406153, 134139054390448042607113321);
    e := SquareTimes(b, e, n, 114022955710911814312406153, 112204980075004817160058048, 6194953972491913203648922816405233269692568179324265);
    e := SquareTimes(b, e, n, 112204980075004817160058048, 87495891853485353579233063, 5998984787636217997544487083653114565964301984794515);
    e := SquareTimes(b, e, n, 87495891853485353579233063, 121409756575586998122438069, 3647781524438588163799649728967058778858907082066754);
    e := Square(b, e, n, 121409756575586998122438069, 19096673214781034833796235, 85672394167575313349904186);
    e := Square(b, e, n, 19096673214781034833796235, 59458510840728682620161164, 2119576812725669415305071);
    e := SquareTimes(b, e, n, 59458510840728682620161164, 82770254184079949174038560, 1684540863861914839175835331362311921115431732550832);
    e := Square(b, e, n, 82770254184079949174038560, 2996541156987094628609952, 39818262448998808579127328);
  }

  lemma PowerC2(b: nat, n: nat) returns (e: nat)
    requires b == 81982237619807054769897707 && n == 172054593956031949258510691
    ensures e == 4434155615661930479 && PowIs(b, e, n, 1)
  {
    hide PowIs;
    e := PowerC1(b, n);
    e := SquareTimes(b, e, n, 2996541156987094628609952, 58802870777818717957471700, 4278524160941772019058339853439519017321295316708);
    e := Square(b, e, n, 58802870777818717957471700, 142619625909171558448502455, 20096979291331631176750995);
    e := SquareTimes(b, e, n, 142619625909171558448502455, 156449210348024975103478519, 9691970434722682020008485893985734544008130783143116);
    e := Square(b, e, n, 156449210348024975103478519, 19628997837548694774478452, 142259237929883036678961599);
    e := SquareTimes(b, e, n, 19628997837548694774478452, 106987526152441206875859902, 183590307429544260416496018364319231824175269731686);
    e := Square(b, e, n, 106987526152441206875859902, 13265178877323161408848792, 66527318387931958980525732);
    e := Square(b, e, n, 13265178877323161408848792, 67935844103917747439254993, 1022727534333363426741381);
    e := SquareTimes(b, e, n, 67935844103917747439254993, 75896190907074230308555495, 2199132751521249911753158958929625364371072470490828);
    e := SquareTimes(b, e, n, 75896190907074230308555495, 109731237503255908776026358, 2744690977668409521368816329941294364039903718543287);
    e := Square(b, e, n, 109731237503255908776026358, 129014045317846846525321596, 69983278023212704030163448);
    e := SquareTimes(b, e, n, 129014045317846846525321596, 72669391512255040754211041, 7930991433635340246448491546570310865121301250383781);
    e := SquareTimes(b, e, n, 72669391512255040754211041, 90097334189718058761034045, 2516265957775196976400877925939754069746750212800442);
    e := SquareTimes(b, e, n, 90097334189718058761034045, 2369291506058493784453998, 3867919057286373488119356960666764797229202913302247);
    e := SquareTimes(b, e, n, 2369291506058493784453998, 38378181680977978705149452, 2674794919930666268795207183696954585966758389536);
    e := SquareTimes(b, e, n, 38378181680977978705149452, 18428159699043902077161395, 701814414091555399163242933813218708375872810748063);
    e := SquareTimes(b, e, n, 18428159699043902077161395, 111364442547125201442713719, 161814497589706956337745820520803114784746428338916);
    e := Square(b, e, n, 111364442547125201442713719, 97556959874257394643084834, 72081998967149083000320197);
    e := SquareTimes(b, e, n, 97556959874257394643084834, 26319842299224446122613173, 4534923976848839077568791305497584459845009244191709);
    e := SquareTimes(b, e, n, 26319842299224446122613173, 41516304628964753654393039, 330080645785463279931063630806487898492011416753004);
    e := SquareTimes(b, e, n, 41516304628964753654393039, 68630961674997079174996703, 821279296025320075771218086910884135033709248691684);
    e := SquareTimes(b, e, n, 68630961674997079174996703, 1, 2244365909887102122201919989889146645022954028415182);
  }

  lemma PrimeC()
    ensures IsPrime(172054593956031949258510691)
  {
    hide PowIs, IsPrime;
    var e0 := PowerC2(81982237619807054769897707, 172054593956031949258510691);
    PowOne(81982237619807054769897707, 172054593956031949258510691);
    PrimeD();
    PrimeByOrder(172054593956031949258510691, 81982237619807054769897707, 4434155615661930479, 1,
      81982237619807054769897707, 154275350521713489305385904, 73510611687487158067405653, 0, 0, 0);
  }

  lemma PowerB1(b: nat, n: nat) returns (e: nat)
    requires b == 9148758478138211201771971577098600188172 && n == 19757330305831588566944191468367130476339
    ensures e == 1222521418896 && PowIs(b, e, n, 3219450550697549974852193757618754684814)
  {
    hide PowIs;
    PowOne(b, n);
    e := 1;
    e := Square(b, e, n, 9148758478138211201771971577098600188172, 17452856350318614524776937116527811289870, 4236391273298746611402238549188438187126);
    e := Square(b, e, n, 17452856350318614524776937116527811289870, 15256330496231587582282042909088020009852, 15417173781568564210561653121962861287832);
    e := Square(b, e, n, 15256330496231587582282042909088020009852, 7186465123911483365735852593675917349660, 11780722223464859236345281243913721838396);
    e := SquareTimes(b, e, n, 7186465123911483365735852593675917349660, 2494169446684761869929460125062934632729, 23914678495631176530683180233808515760481829567725726754959064800917889572921789);
    e := SquareTimes(b, e, n, 2494169446684761869929460125062934632729, 2132088531979932106953125494754670472926, 2880618940022205589938993020936569113318645978121619290626574817974189740284634);
    e := SquareTimes(b, e, n, 2132088531979932106953125494754670472926, 3041151066232241312849026766082165994865, 2104962535135937389257877138023858473727640756870428227516082440095203944121413);
    e := Square(b, e, n, 3041151066232241312849026766082165994865, 4026350534696373438513755681604920933671, 468109793402384656648378078025365294686);
    e := Square(b, e, n, 4026350534696373438513755681604920933671, 10223935246787310469726904505792055077430, 820530829687286955125808394458178773849);
    e := SquareTimes(b, e, n, 10223935246787310469726904505792055077430, 9322935913870068838441262613025143742995, 48402755104364973828090249673749648364557174103529106331698671473042417445408495);
    e := Square(b, e, n, 9322935913870068838441262613025143742995, 18150536280503717997844774112577289339282, 4399234750277663199167485606072938565837);
    e := SquareTimes(b, e, n, 18150536280503717997844774112577289339282, 4570051278230293182343865036963093096940, 152550215259864921127665363157372195766886824720559604400219009197433900221938092);
    e := Square(b, e, n, 4570051278230293182343865036963093096940, 12410437727644433342902949768458675024158, 1057094676373851752617824375212565915078);
    e := Square(b, e, n, 12410437727644433342902949768458675024158, 15792211595920519137762945996642304742841, 7795535237181309466171003130490948373257);
    e := Square(b, e, n, 15792211595920519137762945996642304742841, 17102211454128093695963179719948506856347, 12622856591951353055207389033554592777106);
    e := SquareTimes(b, e, n, 17102211454128093695963179719948506856347, 6578389329972392806944640871377324706129, 135437349396679775331440824263287129094495693311373175627198189142926473280564921);
    e := SquareTimes(b, e, n, 6578389329972392806944640871377324706129, 10362146982508540274383117612657036227066, 20038861692025043376815242235220424157862136601949249738892228248145927538055974);
    e := SquareTimes(b, e, n, 10362146982508540274383117612657036227066, 15549594218231149936475137092598539344001, 49720260875877714726770148403237644805352880840430400424828114449938134918916629);
    e := SquareTimes(b, e, n, 15549594218231149936475137092598539344001, 4710611264995645990396135466613360677961, 111962354404847974296731912139066588380819499933210336920284031994886847312230449);
    e := SquareTimes(b, e, n, 4710611264995645990396135466613360677961, 14306935111055188341908699466257956164563, 10275156250653703150038215010289588800786370623487268113586744021248393515161891);
    e := SquareTimes(b, e, n, 14306935111055188341908699466257956164563, 12054212035985357958569991380413778485311, 94782272462271581987934549167658153975472384266615458470886519641375654935836063);
    e := Square(b, e, n, 12054212035985357958569991380413778485311, 7014420713638344142162941540823364786, 7354436331188238621826829290923741554165);
    e := SquareTimes(b, e, n, 7014420713638344142162941540823364786, 9871318903626800018801925127128344946094, 22783346928726721360541315125324749157911749401606087435498132809638342262);
    e := Square(b, e, n, 9871318903626800018801925127128344946094, 16758244956911997799956314712130823653202, 4931989058680588953381910537073999790406);
    e := Square(b, e, n, 16758244956911997799956314712130823653202, 3087644085772852067253660218464796511251, 14214409016230994624507171178327948943627);
    e := Square(b, e, n, 3087644085772852067253660218464796511251, 6488084572568393398662140446932334101674, 482532095826435760931921599856373044293);
    e := SquareTimes(b, e, n, 6488084572568393398662140446932334101674, 2531696698240161786759645569454066215068, 19492471446111656757208157406940767927091723985356810141475945482907083527655836);
    e := SquareTimes(b, e, n, 2531696698240161786759645569454066215068, 2445393720907838733323005951380984037488, 2967954594336416788839329638240332645326380274010259997030542227012568895400560);
    e := SquareTimes(b, e, n, 2445393720907838733323005951380984037488, 9932424461401412762326196227066431568723, 2769054398228757296096460346311574685827839874709352733014228884865968265834655);
    e := Square(b, e, n, 9932424461401412762326196227066431568723, 8918366516391913661825875591065344187388, 4993238162968133089162321243434113761119);
    e := SquareTimes(b, e, n, 8918366516391913661825875591065344187388, 9950984845626339808167632144562359781912, 36830238831451521884130230685462158811661820169037129571812172557777732813995704);
    e := Square(b, e, n, 9950984845626339808167632144562359781912, 18757685180743459031793611964303916771297, 5011916988028368999698573958289977870373);
    e := Square(b, e, n, 18757685180743459031793611964303916771297, 1174784736088035504326268094920471841438, 17808618264383130683507726946746393169489);
    e := SquareTimes(b, e, n, 1174784736088035504326268094920471841438, 8447080979295009311640669415368405227716, 639073033560352172184487946447347847897616427332282839164933589245456836541668);
    e := Square(b, e, n, 8447080979295009311640669415368405227716, 19215786837807870876373472504002329204075, 3611478674814019573345615334646401966279);
    e := Square(b, e, n, 19215786837807870876373472504002329204075, 5525864191423685667108386084773996767855, 18689086940409309649784099619741173708430);
    e := SquareTimes(b, e, n, 5525864191423685667108386084773996767855, 3605680900520242195309378717180506632160, 14139508597879075877109521127067745406036210126742753828042436931900168797764260);
    e := Square(b, e, n, 3605680900520242195309378717180506632160, 16419827784795524034922106934109693108884, 658030946242726880537513252082518870244);
    e := Square(b, e, n, 16419827784795524034922106934109693108884, 13306821770082688874374288093341548516980, 13646112116815933099821591760631044564084);
    e := Square(b, e, n, 13306821770082688874374288093341548516980, 8358531348907013068593886862012664615683, 8962319446999477733431638706293949066303);
    e := Square(b, e, n, 8358531348907013068593886862012664615683, 3219450550697549974852193757618754684814, 3536158237433519623361016102559509628825);
  }

  lemma PowerB2(b: nat, n: nat) returns (e: nat)
    requires b == 9148758478138211201771971577098600188172 && n == 19757330305831588566944191468367130476339
    ensures e == 1344176515281499603582114 && PowIs(b, e, n, 6516500323222394929084190533573807829460)
  {
    hide PowIs;
    e := PowerB1(b, n);
    e := Square(b, e, n, 3219450550697549974852193757618754684814, 16005496718170176413436694437827660480340, 524608420669439197094801224653359505104);
    e := Square(b, e, n, 16005496718170176413436694437827660480340, 17116265634804989486888178135839906160248, 12966120484392732332014891111197785093768);
    e := Square(b, e, n, 17116265634804989486888178135839906160248, 13258456566382802467363685986149708631668, 14828245757208099178834165450987258904324);
    e := SquareTimes(b, e, n, 13258456566382802467363685986149708631668, 12198975744522653049203274081465629019032, 81399144894246207357938501903554747054672487351883362760251607974081142371678264);
    e := SquareTimes(b, e, n, 12198975744522653049203274081465629019032, 16711167018326391839730685967425381148079, 68909744189083552273018971824820027576238388619306479934372562082372849734166891);
    e := SquareTimes(b, e, n, 16711167018326391839730685967425381148079, 1631195712726749805845753719208396366912, 129314570475897808707825821353951243897955425314250202435051729336681706762249860);
    e := SquareTimes(b, e, n, 1631195712726749805845753719208396366912, 13560738092743535025475423230548543758937, 1232100247322877180151321931227549284161206374096187278701294895357579689424829);
    e := SquareTimes(b, e, n, 13560738092743535025475423230548543758937, 2168288317965443905005900477412346505429, 85153118727775247615145062136170561537772046613196721876324061928323369038269101);
    e := Square(b, e, n, 2168288317965443905005900477412346505429, 1204438558877154909459327933309371357285, 237961007739882917162343846677209072604);
    e := Square(b, e, n, 1204438558877154909459327933309371357285, 6820381475385571486452246194232266314009, 73424507241340002115109568944033799744);
    e := Square(b, e, n, 6820381475385571486452246194232266314009, 8656712996510835566909771721587016864562, 2354447830234052108946289938035055879621);
    e := SquareTimes(b, e, n, 8656712996510835566909771721587016864562, 17417867900715668653880847548782003149223, 34700836221251768572539278254240809967535134119382079631130792534236807388636755);
    e := Square(b, e, n, 17417867900715668653880847548782003149223, 2158367212976865890182086479308382488126, 15355420874713764203954725010286503912577);
    e := Square(b, e, n, 2158367212976865890182086479308382488126, 6926264212043825658357106330929936190380, 235788386079596123584302662496265832264);
    e := SquareTimes(b, e, n, 6926264212043825658357106330929936190380, 8267911451398568613595142388670423822990, 22214268188805912024436565814618284107976835721350595759255338899326142877654790);
    e := SquareTimes(b, e, n, 8267911451398568613595142388670423822990, 15233055147316592394294422004567892312344, 31653776790685804334851508292256436318773185916658975239837769905523306715290504);
    e := SquareTimes(b, e, n, 15233055147316592394294422004567892312344, 17584510032140963308830297529297688497724, 107450373833587463876084879706203720914867242812185942479458851896798625746260012);
    e := SquareTimes(b, e, n, 17584510032140963308830297529297688497724, 13078642753699995833999869423999741146403, 143183985165540590427627508638656202223066254908346803537302719063998849086796271);
    e := SquareTimes(b, e, n, 13078642753699995833999869423999741146403, 7907769673089166862526301954901284385436, 79206214265847153081336500248011042471987462105909742916025340726266670370029808);
    e := SquareTimes(b, e, n, 7907769673089166862526301954901284385436, 19413186630557734259314912838477225489695, 28956223805732998022469548608799661022433209649949719096195193258526833057482203);
    e := Square(b, e, n, 19413186630557734259314912838477225489695, 17440579358160463369300876413581976331538, 19075037432644823740488737407416326595733);
    e := Square(b, e, n, 17440579358160463369300876413581976331538, 16036741233606181452490177031261798786068, 15395491376611376939038112018637165767184);
    e := SquareTimes(b, e, n, 16036741233606181452490177031261798786068, 3690620876896704597439779200915200761344, 119087490950301967945222921491635258242178485573351478072274252735919705674197056);
    e := SquareTimes(b, e, n, 3690620876896704597439779200915200761344, 8248916086175474172169080312801713973920, 6307144344780052361082765543841313190012278514303176066098753573260657656796448);
    e := SquareTimes(b, e, n, 8248916086175474172169080312801713973920, 7551617746111749160942509267040968705799, 31508496003509578209359931665424445586715281219428429415522610040335572679649059);
    e := Square(b, e, n, 7551617746111749160942509267040968705799, 7480450669206645991797575910852997445702, 2886368233999599754445450120898905115241);
    e := SquareTimes(b, e, n, 7480450669206645991797575910852997445702, 11573693506535883733031517569668909877170, 25911313488320128961961275970054253124644074307130437273163216921701327451581962);
    e := SquareTimes(b, e, n, 11573693506535883733031517569668909877170, 16825528773474459508715620813107294533623, 62026582962373555772538218230958743203524198045210349745247118731569910933161443);
    e := SquareTimes(b, e, n, 16825528773474459508715620813107294533623, 10377183235081217899414225510103692856484, 131090537859719069050193897965456045458123779758191887069862758107289367100788536);
    e := SquareTimes(b, e, n, 10377183235081217899414225510103692856484, 12914652405598066240343614596379231279474, 49864661224233295158886654454885377827006425068350341969792560116700788761388922);
    e := Square(b, e, n, 12914652405598066240343614596379231279474, 8802712626287945887266931270136476300888, 8441841290075034788106197075579208363492);
    e := Square(b, e, n, 8802712626287945887266931270136476300888, 15045667541927555440194096211401265283182, 3921974699088665985198002163900556784358);
    e := SquareTimes(b, e, n, 15045667541927555440194096211401265283182, 8605733815382187393606992513639306065056, 104823057813143980776229343419637907832819611801827289371199640926400534918496048);
    e := Square(b, e, n, 8605733815382187393606992513639306065056, 17537900330181141060833608777859162542613, 3748414049612424187842529392904439562857);
    e := SquareTimes(b, e, n, 17537900330181141060833608777859162542613, 19398325626256179070939836239045433163874, 142425940945260719072947749589699566354513893903863890972049483798326958369615246);
    e := Square(b, e, n, 19398325626256179070939836239045433163874, 18999536686118205708076459474030000148047, 19045844315879036247579492985711681105911);
    e := Square(b, e, n, 18999536686118205708076459474030000148047, 14085306779603317604553452397035365180307, 18270808287322287326087914534497112628218);
    e := Square(b, e, n, 14085306779603317604553452397035365180307, 1341324029802437097457343225558907495759, 10041633358580865940406532577607399350910);
    e := SquareTimes(b, e, n, 1341324029802437097457343225558907495759, 3581058332261539785328547084402705870877, 833108014100570007928443124663922608489617174431973909292410459523888071340245);
    e := Square(b, e, n, 3581058332261539785328547084402705870877, 6516500323222394929084190533573807829460, 649074474159834509435881065616635276471);
  }

  lemma PowerB3(b: nat, n: nat) returns (e: nat)
    requires b == 9148758478138211201771971577098600188172 && n == 19757330305831588566944191468367130476339
    ensures e == 172054593956031949258510691 && PowIs(b, e, n, 1)
  {
    hide PowIs;
    e := PowerB2(b, n);
    e := SquareTimes(b, e, n, 6516500323222394929084190533573807829460, 10826002675492735322954795059520625694587, 19663587016581771983473865393246192255211880721757656743113642502205548707808167);
    e := SquareTimes(b, e, n, 10826002675492735322954795059520625694587, 4696048171776980570134823627708477822884, 54271292203943911181693436274654916523930957005472860541187514325617788602548056);
    e := Square(b, e, n, 4696048171776980570134823627708477822884, 19735764202068961092870567181341045569426, 1116186655296276555875092427053869893770);
    e := Square(b, e, n, 19735764202068961092870567181341045569426, 15259351624186530280202145201877611830785, 19714221638775835368057155291873208206769);
    e := Square(b, e, n, 15259351624186530280202145201877611830785, 16355648338396861518328361897502131609816, 11785388429824274548871147654967716654131);
    e := SquareTimes(b, e, n, 16355648338396861518328361897502131609816, 19048718096193709503748728659744016984059, 123870939243716849341515139651843372717419893003400965753107924184658600317695207);
    e := SquareTimes(b, e, n, 19048718096193709503748728659744016984059, 1, 168021714320776853500085529103270665198617891598375660167187750924268925263737129);
  }

  lemma PrimeB()
    ensures IsPrime(19757330305831588566944191468367130476339)
  {
    hide PowIs, IsPrime;
    var e0 := PowerB3(9148758478138211201771971577098600188172, 19757330305831588566944191468367130476339);
    PowOne(9148758478138211201771971577098600188172, 19757330305831588566944191468367130476339);
    PrimeC();
    PrimeByOrder(19757330305831588566944191468367130476339, 9148758478138211201771971577098600188172, 172054593956031949258510691, 1,
      9148758478138211201771971577098600188172, 16371654433361644093796961727196399386194, 7580999557119167215323054323116539631207, 0, 0, 0);
  }

  lemma PowerA1(b: nat, n: nat) returns (e: nat)
    requires b == 16384 && n == 276602624281642239937218680557139826668747
    ensures e == 1994980540135 && PowIs(b, e, n, 40231065550339761575771664234344597570982)
  {
    hide PowIs;
    PowOne(b, n);
    e := 1;
    e := SquareTimes(b, e, n, 16384, 4398046511104, 0);
    e := SquareTimes(b, e, n, 4398046511104, 316912650057057350374175801344, 0);
    e := Square(b, e, n, 316912650057057350374175801344, 128046162491301585682529114334775687094835, 363097161594256583);
    e := SquareTimes(b, e, n, 128046162491301585682529114334775687094835, 212856644023487045304013853280775616008920, 971173397698125370133517023934781403037534840);
    e := Square(b, e, n, 212856644023487045304013853280775616008920, 156582828171149672818525621127440707882630, 163801594517078895452742343591837327292910);
    e := Square(b, e, n, 156582828171149672818525621127440707882630, 38040715825432232641621273725291558307642, 88640453581202786044539279840987789484414);
    e := Square(b, e, n, 38040715825432232641621273725291558307642, 229205397139989240296261408333576042754370, 5231678709735698669162930349942935788902);
    e := Square(b, e, n, 229205397139989240296261408333576042754370, 170289275614754799094148000367877744014697, 189929919191973753448342369342910802228849);
    e := Square(b, e, n, 170289275614754799094148000367877744014697, 172957589150197174153788676534433232047177, 104837896837418083797181255279412209498456);
    e := SquareTimes(b, e, n, 172957589150197174153788676534433232047177, 19078955127170863656147796188307676594413, 1771915018531687263145073547478636593085275609);
    e := SquareTimes(b, e, n, 19078955127170863656147796188307676594413, 20770972444212697980363469693412888374449, 21561194447956405660225579218521697315589901);
    e := SquareTimes(b, e, n, 20770972444212697980363469693412888374449, 207001409788032549794759110919829934146595, 25555083378476358947918146552034708715709687);
    e := SquareTimes(b, e, n, 207001409788032549794759110919829934146595, 120378404327176040187716165883278090972766, 2538108886039036412892212889277098333654893222);
    e := SquareTimes(b, e, n, 120378404327176040187716165883278090972766, 236593179025817197821332484369879609353645, 858342877252157627541450488421374795317708697);
    e := SquareTimes(b, e, n, 236593179025817197821332484369879609353645, 185627809385704545742869161440404559835132, 3315645438264839662002710245392161078308008844);
    e := Square(b, e, n, 185627809385704545742869161440404559835132, 23240114245615629934858104926018847889859, 124574680760259051321085286824209396237895);
    e := Square(b, e, n, 23240114245615629934858104926018847889859, 186287183198737183961899297779414230874639, 1952631185448635220546017909998970199086);
    e := Square(b, e, n, 186287183198737183961899297779414230874639, 110599954263651227414905217420636060211379, 125461263117969112920739630217029924906186);
    e := Square(b, e, n, 110599954263651227414905217420636060211379, 211491138720364449541493541816222224362956, 44223549631497797148830664353353080020855);
    e := SquareTimes(b, e, n, 211491138720364449541493541816222224362956, 65261646349581118816137277634230855004372, 2649402819997752699550093001417625839542285316);
    e := SquareTimes(b, e, n, 65261646349581118816137277634230855004372, 142771459008584795968674180506761950001830, 252278182838307107858673911089632374978698958);
    e := Square(b, e, n, 142771459008584795968674180506761950001830, 71097245186706638388972136744249845097541, 73693044526883933548868922224786690580797);
    e := SquareTimes(b, e, n, 71097245186706638388972136744249845097541, 266647921700855282982795704985623566432148, 299411991488472189750942302892264717759428548);
    e := SquareTimes(b, e, n, 266647921700855282982795704985623566432148, 163766764233466902891097281107076976932637, 4211531460397924694401430282975163113787609417);
    e := Square(b, e, n, 163766764233466902891097281107076976932637, 196079291540063951768178782995495790080626, 96960587908926479545478321153398959816869);
    e := Square(b, e, n, 196079291540063951768178782995495790080626, 269881956793750849871368796194774026601721, 138997555322200457431858808482552263172865);
    e := SquareTimes(b, e, n, 269881956793750849871368796194774026601721, 158284750911892530443219286961655710763910, 4314309962372506280955334888030920919365707822);
    e := SquareTimes(b, e, n, 158284750911892530443219286961655710763910, 67189824080875962507895312628106456735925, 1484026982594457368361850046844764260234391425);
    e := SquareTimes(b, e, n, 67189824080875962507895312628106456735925, 186356407135147162941413154352289170380992, 267405694277287587025610076210020776644873664);
    e := SquareTimes(b, e, n, 186356407135147162941413154352289170380992, 169619542662542236968285974226179653555689, 2057085300572610268062254338845854478300971621);
    e := SquareTimes(b, e, n, 169619542662542236968285974226179653555689, 38052488506106986029714663282685421104786, 1704179822393882816190979480664152317557134474);
    e := Square(b, e, n, 38052488506106986029714663282685421104786, 167021008132590084184356188932127109885679, 5234917366630008644979915944392903503711);
    e := SquareTimes(b, e, n, 167021008132590084184356188932127109885679, 90724323459230079928976042398717969996625, 1652364457125253458883032993420597907608024877);
    e := SquareTimes(b, e, n, 90724323459230079928976042398717969996625, 53148345495550476185305596061333392472116, 487540972994630004118024416857187549500582372);
    e := SquareTimes(b, e, n, 53148345495550476185305596061333392472116, 153668302695330190831403109975302717752364, 167318183941052096424843938288334383037959420);
    e := Square(b, e, n, 153668302695330190831403109975302717752364, 196524524301035589442061411997502693011378, 85371378216641349739390380498900830136794);
    e := Square(b, e, n, 196524524301035589442061411997502693011378, 229881456116400381587573961812243291111085, 139629509127226357126016143151406175465317);
    e := SquareTimes(b, e, n, 229881456116400381587573961812243291111085, 223083963950463193214476700819162915361907, 3130195926059502241158636706232042951602662919);
    e := SquareTimes(b, e, n, 223083963950463193214476700819162915361907, 191381546392458713741872130537713007565714, 2947815843672497219158436239889780901857078666);
    e := SquareTimes(b, e, n, 191381546392458713741872130537713007565714, 40231065550339761575771664234344597570982, 2169520518941667890755634752955368984605318606);
  }

  lemma PowerA2(b: nat, n: nat) returns (e: nat)
    requires b == 16384 && n == 276602624281642239937218680557139826668747
    ensures e == 2193504301065861535551725 && PowIs(b, e, n, 100899841336162144432115819078876183608671)
  {
    hide PowIs;
    e := PowerA1(b, n);
    e := SquareTimes(b, e, n, 40231065550339761575771664234344597570982, 71527553180435404333214180810588199999093, 95870880002973900347906622171708999291487809);
    e := Square(b, e, n, 71527553180435404333214180810588199999093, 177203124340802378142286253664959216816248, 18496537685667828735865799137818552333283);
    e := Square(b, e, n, 177203124340802378142286253664959216816248, 94955108111828857457388406753848630445436, 113523678084011253926276819441624867357644);
    e := Square(b, e, n, 94955108111828857457388406753848630445436, 166354322724186057572616354449790292110274, 32597205395088213422390752958719246589226);
    e := Square(b, e, n, 166354322724186057572616354449790292110274, 181934842475584728327876263625611063288207, 100048800190863979491208303827303741288127);
    e := SquareTimes(b, e, n, 181934842475584728327876263625611063288207, 80539508453353476125564699429400041626822, 1960628906129964356924009297013959522740821102);
    e := SquareTimes(b, e, n, 80539508453353476125564699429400041626822, 48030225410063040187449148677536216879123, 384221437510022840663225321995453012470419239);
    e := SquareTimes(b, e, n, 48030225410063040187449148677536216879123, 92980693535766384044399582708089378007464, 136644731862370328500062854860433891573075976);
    e := SquareTimes(b, e, n, 92980693535766384044399582708089378007464, 110417380625061043306774422962641759192131, 512093431840607436515001666045744950940633239);
    e := SquareTimes(b, e, n, 110417380625061043306774422962641759192131, 49626136891949388661102426041398437267791, 722168471231620697862267274217501154107690739);
    e := SquareTimes(b, e, n, 49626136891949388661102426041398437267791, 134726818616516615509624214603607309052038, 145876246979252782373920818724722461249253678);
    e := SquareTimes(b, e, n, 134726818616516615509624214603607309052038, 56424745755685286084813795884957759016068, 1075156667280833244101413722174459357212321524);
    e := SquareTimes(b, e, n, 56424745755685286084813795884957759016068, 149457686695183284197034547590001369106938, 188583140942605834995593200812651490193000274);
    e := Square(b, e, n, 149457686695183284197034547590001369106938, 254287140704528376812913291741167802216101, 80757007169718614445655159218202654624669);
    e := Square(b, e, n, 254287140704528376812913291741167802216101, 149449149989845418144215673369975202124354, 233772004497847936150341266316948410675301);
    e := Square(b, e, n, 149449149989845418144215673369975202124354, 269580295304946393845596091429171706434907, 80747782096041599832063545892083566857947);
    e := Square(b, e, n, 269580295304946393845596091429171706434907, 268452504038579681521689082691830230431543, 262736247732431046616153534247274042581798);
    e := SquareTimes(b, e, n, 268452504038579681521689082691830230431543, 19816286393514357904123663729534819347942, 4268728775364488325844186954054891218112720142);
    e := Square(b, e, n, 19816286393514357904123663729534819347942, 179181359966283914376780111898957016697485, 1419672743342964331782953157089332601957);
    e := SquareTimes(b, e, n, 179181359966283914376780111898957016697485, 82405980875845636384460025993958168296494, 1901731937878727713721992357737510439737574198);
    e := Square(b, e, n, 82405980875845636384460025993958168296494, 96354664049196546040056698114747314617762, 24550546842230121984477077021628486712742);
    e := Square(b, e, n, 96354664049196546040056698114747314617762, 175589492201661397657379091765942466311402, 33565195949045488298404058598685433395086);
    e := SquareTimes(b, e, n, 175589492201661397657379091765942466311402, 240853629467637273365668771928498495415072, 1826251933980770846585892453719634579485399712);
    e := Square(b, e, n, 240853629467637273365668771928498495415072, 129547934204749376356626051318856040420600, 209724947398425641667988636390266337768472);
    e := SquareTimes(b, e, n, 129547934204749376356626051318856040420600, 35654663631828388041913330874142546639773, 994087532785270596978883498889031435880272841);
    e := SquareTimes(b, e, n, 35654663631828388041913330874142546639773, 191126249884239737978291288142466739245480, 75300234797605668118929732219851137542461448);
    e := Square(b, e, n, 191126249884239737978291288142466739245480, 191392219603236977269644445288911555931718, 132063979832736710985907303527546684754606);
    e := SquareTimes(b, e, n, 191392219603236977269644445288911555931718, 42380965118357990463832855235843004873899, 2169762510877804477310709529827774245098505311);
    e := Square(b, e, n, 42380965118357990463832855235843004873899, 263287973105875784327824598646843455951951, 6493597842855624084503741333218917850750);
    e := Square(b, e, n, 263287973105875784327824598646843455951951, 185288152265024854084230430261620523455908, 250614241141894641125155855430851603776919);
    e := Square(b, e, n, 185288152265024854084230430261620523455908, 196818908195318338316021603610771061578221, 124119210578529517053081931473024691164169);
    e := Square(b, e, n, 196818908195318338316021603610771061578221, 247143116849247193694768378511335250435326, 140048138457839346973488952920570924459745);
    e := SquareTimes(b, e, n, 247143116849247193694768378511335250435326, 63551124034928179021495604716464890133866, 3617934350599277720647837821984098484987521794);
    e := SquareTimes(b, e, n, 63551124034928179021495604716464890133866, 150913084281899006566345771087967255204703, 239226956902810460652351443734419514128409283);
    e := SquareTimes(b, e, n, 150913084281899006566345771087967255204703, 121242749747000845919565212821951377782101, 1349017033180926299967474195569736435836904865);
    e := Square(b, e, n, 121242749747000845919565212821951377782101, 251823978872591522073176799091318272847301, 53144124732693220430253911169392293332700);
    e := SquareTimes(b, e, n, 251823978872591522073176799091318272847301, 143087957141878257663359918978866179224263, 3756278688731361386041812645250823388183759243);
    e := SquareTimes(b, e, n, 143087957141878257663359918978866179224263, 54822030830900929008565930168812093791118, 1212745885226906515380278235037511298500407574);
    e := Square(b, e, n, 54822030830900929008565930168812093791118, 121598829776792132285012046909904932816828, 10865605748425721599105139180916456658968);
    e := SquareTimes(b, e, n, 121598829776792132285012046909904932816828, 100899841336162144432115819078876183608671, 875835277533292080175544175678536365439247555);
  }

  lemma PowerA3(b: nat, n: nat) returns (e: nat)
    requires b == 16384 && n == 276602624281642239937218680557139826668747
    ensures e == 2411783484598582588738304622603409481 && PowIs(b, e, n, 16006551209412809798239773766945075523481)
  {
    hide PowIs;
    e := PowerA2(b, n);
    e := SquareTimes(b, e, n, 100899841336162144432115819078876183608671, 140575148997689222928575529700417903677066, 603037902784756837718007161101276306802080674);
    e := Square(b, e, n, 140575148997689222928575529700417903677066, 89796105950058974751654834600658262963696, 71443185208543454119144706518019195906780);
    e := Square(b, e, n, 89796105950058974751654834600658262963696, 172950893879820542275660221907949222106151, 29151352647992104918049081344336429093995);
    e := Square(b, e, n, 172950893879820542275660221907949222106151, 269934664790212557605756126785579009180953, 108140737173093293796198827343241660565384);
    e := Square(b, e, n, 269934664790212557605756126785579009180953, 27516400033870082315037385751401701920636, 263427447388250816929509491059946799754559);
    e := SquareTimes(b, e, n, 27516400033870082315037385751401701920636, 147580934048961688146105975031010125120951, 44848391577618037176248176365350088045051579);
    e := Square(b, e, n, 147580934048961688146105975031010125120951, 135185461497543084738727777066100397422788, 78741596003756710063986075840450997119879);
    e := SquareTimes(b, e, n, 135185461497543084738727777066100397422788, 154845294799923361335229611288873115447661, 1082489317079295557005960368643167580283657305);
    e := SquareTimes(b, e, n, 154845294799923361335229611288873115447661, 136411886994887432043930000864286822850871, 1420233228988920809240949747869238011837045819);
    e := Square(b, e, n, 136411886994887432043930000864286822850871, 72887351071505606681905177761951814470226, 67274137264000431921219449723216333868445);
    e := Square(b, e, n, 72887351071505606681905177761951814470226, 79322201675136737840184915326314112440240, 19206491478589697793799245435857141891388);
    e := Square(b, e, n, 79322201675136737840184915326314112440240, 116027735722919920965645284725924111402877, 22747476438200439059184939626688318388009);
    e := SquareTimes(b, e, n, 116027735722919920965645284725924111402877, 99606543952774213355950656885246057676686, 797420281532470283699689939857839738971702550);
    e := SquareTimes(b, e, n, 99606543952774213355950656885246057676686, 115177099509201136070563823977188924140166, 587677936951368365496213053639733906881669934);
    e := Square(b, e, n, 115177099509201136070563823977188924140166, 249400734658288781316964581698614256379973, 47959647113994689145556943025976440755389);
    e := SquareTimes(b, e, n, 249400734658288781316964581698614256379973, 113674378742802697359269423339082742446720, 3684334900192091080394012612226865104173260928);
    e := SquareTimes(b, e, n, 113674378742802697359269423339082742446720, 184199328216248245857240550437986209313, 765400641420990915610499699679434806669125821);
    e := Square(b, e, n, 184199328216248245857240550437986209313, 2056317751850465548300754227263635908876, 122664752742076559112124551475102719);
    e := SquareTimes(b, e, n, 2056317751850465548300754227263635908876, 20125200542955931126432231282170537357370, 250463296653865208918792050393030404054162);
    e := SquareTimes(b, e, n, 20125200542955931126432231282170537357370, 182714252665829991348497582729739010591371, 23990763887900272355086129627869170499811007);
    e := SquareTimes(b, e, n, 182714252665829991348497582729739010591371, 225312678908765566550544193828568748240710, 1977463586027456849019990802275175501844215022);
    e := SquareTimes(b, e, n, 225312678908765566550544193828568748240710, 155325633749284901903455979018602906065780, 3007010230113347935880160461385711057562855460);
    e := SquareTimes(b, e, n, 155325633749284901903455979018602906065780, 183139025912900202994724530817866116283709, 1429058184752584502056180597426371400216158953);
    e := Square(b, e, n, 183139025912900202994724530817866116283709, 10345298698818750078634354232884497442163, 121256632685360723093317741606477367460994);
    e := Square(b, e, n, 10345298698818750078634354232884497442163, 121323298363596403230161203681922455518920, 386927656401429335706808219237874068867);
    e := Square(b, e, n, 121323298363596403230161203681922455518920, 101540144482142357056366835912195435349217, 53214761660521011622977230747148032592189);
    e := Square(b, e, n, 101540144482142357056366835912195435349217, 159134166080482551941996171917773520225322, 37275137819936558703404039370929414418661);
    e := SquareTimes(b, e, n, 159134166080482551941996171917773520225322, 249956797516486730027278998760746407531244, 1499997407126019090902550602124226956243499196);
    e := SquareTimes(b, e, n, 249956797516486730027278998760746407531244, 60736295561698986065304732445552701020865, 3700782371438220783399269631855659804223141597);
    e := Square(b, e, n, 60736295561698986065304732445552701020865, 68984052175518736736614509766235324746185, 13336451915951266473917107755378654049320);
    e := Square(b, e, n, 68984052175518736736614509766235324746185, 89462823790658970618485735842040404800106, 17204462419377438813174512094079663329877);
    e := Square(b, e, n, 89462823790658970618485735842040404800106, 107548065274635666365612449819756387194650, 28935361193280208248788258068804819748638);
    e := Square(b, e, n, 107548065274635666365612449819756387194650, 273741103136643191388210911203503990027780, 41816618241987350208095912277862312801760);
    e := SquareTimes(b, e, n, 273741103136643191388210911203503990027780, 220872294203172099202676682532502691932512, 4438576089022256545564121987867409774454542304);
    e := Square(b, e, n, 220872294203172099202676682532502691932512, 251331661725013571234812207584584093248636, 176370598338572525333372744700440557681164);
    e := Square(b, e, n, 251331661725013571234812207584584093248636, 234519652416740181395989173376997536998859, 228369504264493720143503771592434447789871);
    e := SquareTimes(b, e, n, 234519652416740181395989173376997536998859, 247866017529519058846923317403828917100900, 3257782805658132757692499711424996697726952532);
    e := Square(b, e, n, 247866017529519058846923317403828917100900, 135541744060435178519267235927804223104644, 222114894265742442920278419714248552256548);
    e := Square(b, e, n, 135541744060435178519267235927804223104644, 84543780118376060740326574762808394577641, 66418619239990385262107662398243665684885);
    e := SquareTimes(b, e, n, 84543780118376060740326574762808394577641, 16006551209412809798239773766945075523481, 423376713442179063663551214754383878292372309);
  }

  lemma PowerA4(b: nat, n: nat) returns (e: nat)
    requires b == 16384 && n == 276602624281642239937218680557139826668747
    ensures e == 19757330305831588566944191468367130476339 && PowIs(b, e, n, 1)
  {
    hide PowIs;
    e := PowerA3(b, n);
    e := SquareTimes(b, e, n, 16006551209412809798239773766945075523481, 160304567724279928812005931947734984056485, 15176065066470819106966309857940575197807537);
    e := SquareTimes(b, e, n, 160304567724279928812005931947734984056485, 225459610864705393429056830009112282577955, 1522142940357526273040003576995276709092850935);
    e := SquareTimes(b, e, n, 225459610864705393429056830009112282577955, 154158699493479600026099115525488465886337, 3010933399990556894507227970516729194275260829);
    e := SquareTimes(b, e, n, 154158699493479600026099115525488465886337, 113727880365865305768101019949372386318525, 1407666317198830727688133084649843704810815593);
    e := SquareTimes(b, e, n, 113727880365865305768101019949372386318525, 141169181970303267694176702739033264996321, 766121293054233105847646410464602095189183357);
    e := Square(b, e, n, 141169181970303267694176702739033264996321, 20852166459987841095271221206059416130338, 72048260532310654094190799696553284996349);
    e := Square(b, e, n, 20852166459987841095271221206059416130338, 147620844463418569624496921072207144910624, 1571976575436633778117870794030611180460);
    e := SquareTimes(b, e, n, 147620844463418569624496921072207144910624, 207890879824994546910826334603025434758830, 1290800169800474712629581049527496643826604982);
    e := SquareTimes(b, e, n, 207890879824994546910826334603025434758830, 207595485312986244222344616224181746620700, 2559967888043982078464384648116746843048262700);
    e := Square(b, e, n, 207595485312986244222344616224181746620700, 266923732856059701510153452999870965170014, 155804326275853435103536572961268077530838);
    e := Square(b, e, n, 266923732856059701510153452999870965170014, 218631566832821983138097142210029686245642, 257583525633027705067681123853479943815982);
    e := SquareTimes(b, e, n, 218631566832821983138097142210029686245642, 213934842217832669951442573243412834689109, 2831322742871133046898684935963697761013580961);
    e := SquareTimes(b, e, n, 213934842217832669951442573243412834689109, 1, 2710982320584375593624680288140527441180389149);
  }

  lemma PrimeA()
    ensures IsPrime(276602624281642239937218680557139826668747)
  {
    hide PowIs, IsPrime;
    var e0 := PowerA4(16384, 276602624281642239937218680557139826668747);
    PowOne(16384, 276602624281642239937218680557139826668747);
    PrimeB();
    PrimeByOrder(276602624281642239937218680557139826668747, 16384, 19757330305831588566944191468367130476339, 1,
      16384, 94074944912245044309966580483695483989395, 5572, 0, 0, 0);
  }

  lemma PowerRistretto1(b: nat, n: nat) returns (e: nat)
    requires b == 2975531125133123119648879457563281269120703404158613135195788908093573672641 && n == 7237005577332262213973186563042994240857116359379907606001950938285454250989
    ensures e == 1745607972618 && PowIs(b, e, n, 5328262228400811278332535113572013722887469185981759636883888747666703065620)
  {
    hide PowIs;
    PowOne(b, n);
    e := 1;
    e := SquareTimes(b, e, n, 2975531125133123119648879457563281269120703404158613135195788908093573672641, 3665235763280526279908536420599828886736543928067072603103294819968044667087, 3640278286298253596247792437479906808634235450394172185440512107150028116120212562837071376339907497304611466337931008053982878118859538868760284909306);
    e := Square(b, e, n, 3665235763280526279908536420599828886736543928067072603103294819968044667087, 2842607373568233679126802808133879853739251170804687763745690814605824089372, 1856286147202703521034691658378133180412219648999977872421384837026664486073);
    e := Square(b, e, n, 2842607373568233679126802808133879853739251170804687763745690814605824089372, 5146656198582732691297687165262510079968062831454669297356825201005868055503, 1116541447138573496756244542216926257445550410337352191787132663081528161829);
    e := SquareTimes(b, e, n, 5146656198582732691297687165262510079968062831454669297356825201005868055503, 5936157607676022067457478676780565476569134042210044479126850339426335072322, 10890702786682449096330045617320415939547620901534715162157878196049135343766652538552539739258639619210708132516373028169262205215937876569589902035323);
    e := Square(b, e, n, 5936157607676022067457478676780565476569134042210044479126850339426335072322, 7175938532651233903748682442707025085440801865718631403814725555505715236145, 4869136380596723629135004668979497428744714294526662175829914325404308405951);
    e := SquareTimes(b, e, n, 7175938532651233903748682442707025085440801865718631403814725555505715236145, 2964120003904931808861274971784108810578952962345512456809578895262572152397, 21172054836452887857810860806581274132875004894866424181669591090676203003875376719714675450757591484943458758754131344495805234149436076050605571698852);
    e := SquareTimes(b, e, n, 2964120003904931808861274971784108810578952962345512456809578895262572152397, 6874789637663776313523746259733825275063889672641281416831346523591968762035, 3612410989283083291597337184715291910495607803500238396776660357559383593041552857160988931779013411648891060308694104703997368069725219937149756598606);
    e := Square(b, e, n, 6874789637663776313523746259733825275063889672641281416831346523591968762035, 6974337175062843460372899792875754088382950456993122439444980336729723370389, 6530702796494380958036772092722183590660751575243958592314969107719368813924);
    e := Square(b, e, n, 6974337175062843460372899792875754088382950456993122439444980336729723370389, 6207530265682898525770647841602741158668051929211741291680926422922192217409, 6721202369087294405032056121383726858328735707533238205183036337879283474008);
    e := SquareTimes(b, e, n, 6207530265682898525770647841602741158668051929211741291680926422922192217409, 5089192805081444504726152334872055858411421915105645889720167477643654000009, 15843213750097627529216123778779899942590069284060670615559733314812734402507119172389046741110040870205746136775403909749783550970327098095693522854808);
    e := SquareTimes(b, e, n, 5089192805081444504726152334872055858411421915105645889720167477643654000009, 3729166653595140297381057994581282117922119383234765286236682086947030664036, 10648866909416817463266575343646622302587423142257840331731479399856454166945170643559180565540131658984339879701733756014031033110083772567385947990465);
    e := Square(b, e, n, 3729166653595140297381057994581282117922119383234765286236682086947030664036, 7137485879826442710213371833326605936948003446197224505871178667154237758127, 1921607463429967667809556145294639673072208594375451036803121489188086983621);
    e := SquareTimes(b, e, n, 7137485879826442710213371833326605936948003446197224505871178667154237758127, 2373096510333686718966938841103364010878955140374695579704181567728478764382, 20945759582357231348859289171805652657923861404001200840442523382283573596550325800417063223403003690971496593161656571523133667776391377273927129958063);
    e := SquareTimes(b, e, n, 2373096510333686718966938841103364010878955140374695579704181567728478764382, 6405772445709333074017480073639598936699222844194712905383296063556588401325, 2315455247926873486937520278540282510055411785801101160768372938128407492471015480718092658111539765794242622665698335082010236274743216487437414843731);
    e := SquareTimes(b, e, n, 6405772445709333074017480073639598936699222844194712905383296063556588401325, 164317360067121570284146884234674282780934341476944297429580691382277450951, 16871302184975645335048356287593428648304457911056855395164102391409682538122971674307018779006626383798788985051935601008077574748596110869200521114666);
    e := Square(b, e, n, 164317360067121570284146884234674282780934341476944297429580691382277450951, 2912146453556428322079037447932495181322413701611605686133751551442106528648, 3730851735695499161156490637513609263680659906795929367355643579423586477);
    e := Square(b, e, n, 2912146453556428322079037447932495181322413701611605686133751551442106528648, 960028914461910659853818081051779040975436451011166430819809887532753398109, 1171837837672005611047987902738947141008388906493256583163207695295041008655);
    e := SquareTimes(b, e, n, 960028914461910659853818081051779040975436451011166430819809887532753398109, 2972356994885678752509606889581643171603070875080246994629418464611369601473, 378943286280227182487612882350334062761944738417066543864509355318675117477309595439650039201084087706465024758348966597672186029868199833148148787432);
    e := Square(b, e, n, 2972356994885678752509606889581643171603070875080246994629418464611369601473, 1549361267559003431076770652863421714450574831755220452476910377751802357029, 1220795812665738752155885365755814834380326718577345897402649771801243444300);
    e := SquareTimes(b, e, n, 1549361267559003431076770652863421714450574831755220452476910377751802357029, 4552874947872426685181280873178328187802856648027268743880368401400270769342, 986985971498672922831788805882382338515968610128500927073281834026306194503370885762346773036146320800612548172158570312456167015513269301900337275751);
    e := Square(b, e, n, 4552874947872426685181280873178328187802856648027268743880368401400270769342, 31012265291365030753547563406996299953448142391039883343334817870986964752, 2864260648891947982711390605243575784521789788377565065203964152685569232708);
    e := SquareTimes(b, e, n, 31012265291365030753547563406996299953448142391039883343334817870986964752, 2369169303297118495569055780024983823164495171844705344082185186136207591988, 395432691765906460018003755696568768663856627653567968407848341774505843745231303816298544947289343351860922868469652582819815705770426961644073084);
    e := SquareTimes(b, e, n, 2369169303297118495569055780024983823164495171844705344082185186136207591988, 3059766519068902245709035047862486866731795828404872399757436477996955790036, 2307797954653615460545943962385976253475842988576177280466878994426247218567769067428081221161071118519389950570971078892106087872738789274864643533612);
    e := SquareTimes(b, e, n, 3059766519068902245709035047862486866731795828404872399757436477996955790036, 6822442268978850854592382282468272686290476081204332545390266241015593418200, 3849303605142812160942649179614913570678464758608218666313504038396123385710301802012543112024332492911563648801110086889981219460752051796064989347224);
    e := SquareTimes(b, e, n, 6822442268978850854592382282468272686290476081204332545390266241015593418200, 2760896271589094641256962135464800424419427770653358600175313710813182187103, 19137505519210171259728229430090707733836644901837888911773187798952002578734973332608899885912012364313329463846556712151031821034526331599799659906373);
    e := SquareTimes(b, e, n, 2760896271589094641256962135464800424419427770653358600175313710813182187103, 2338951956602103976058197758407137832003815435933005695873093672217098025329, 3134048916563367820107048626838522986395700022294175424451121532455585944547148034999568545993140785007519327820494995991422438576264159349938393521360);
    e := Square(b, e, n, 2338951956602103976058197758407137832003815435933005695873093672217098025329, 3250659748771951401884218851066237121211939833634847786563837599231965709897, 755933679590923200887033011987710395872760216082926049791289029456494440696);
    e := SquareTimes(b, e, n, 3250659748771951401884218851066237121211939833634847786563837599231965709897, 975258862138234497501502464167199400705606393990389302178648032907625157374, 4344588191612358221796679473057901819774184860748652411866389010548636143416688849888574434498967540512795642953111040219717617648573957421271446179455);
    e := Square(b, e, n, 975258862138234497501502464167199400705606393990389302178648032907625157374, 7232046672972164392716347785116782272069947763230477244222753543362230759150, 131425882986506371543942433220121700446775961755452269854245865830429237934);
    e := SquareTimes(b, e, n, 7232046672972164392716347785116782272069947763230477244222753543362230759150, 1339835528936441179073448645206275064080348347380556628301920123893429482590, 21504434710177025698360980556780983349632206878657273633746121086078053693859108593898464530810801088789504020726118577593577125361891095262104290368190);
    e := SquareTimes(b, e, n, 1339835528936441179073448645206275064080348347380556628301920123893429482590, 3845953451858417029761895654704770115424302248007699415941171832213454746895, 738088723271091115528108065138540680573641436012578492377486088389678833027519921279031588685207704667283491758236433859730801170995848809897291986345);
    e := SquareTimes(b, e, n, 3845953451858417029761895654704770115424302248007699415941171832213454746895, 4778554895186897331026025208657200810864931419910679177085683967649218589765, 6081540977743000601749259702221005121733107660710152256375268120434275325970512111028606250018959354387472442553223604197117247029624294219330943339340);
    e := Square(b, e, n, 4778554895186897331026025208657200810864931419910679177085683967649218589765, 5470573762597613452518301541285217260694163667102453414694111630309308137397, 3155253459778601996912076142123649843035912347955642230564362537576529457652);
    e := Square(b, e, n, 5470573762597613452518301541285217260694163667102453414694111630309308137397, 3838734098177115757655769727859307005388404832769746463616212370121576485861, 4135298359553468975073297255326008238741000191859994337324905737550950952932);
    e := Square(b, e, n, 3838734098177115757655769727859307005388404832769746463616212370121576485861, 1685680740718780297972317168860174858816747602262035464124602273948929684745, 2036184623466834588207301016058619848368236779177303026559188444695860941584);
    e := Square(b, e, n, 1685680740718780297972317168860174858816747602262035464124602273948929684745, 1416954027420938847720355136703742910617445099837963540998531035653648693586, 392637469913028535260627730986011382077298659467445801535194654383169889051);
    e := SquareTimes(b, e, n, 1416954027420938847720355136703742910617445099837963540998531035653648693586, 2277625253387548773050836222144282001429162223638617787819795107505666852900, 825500061711308608257416965586972825252163970476108258837886360524635523271230791020513322806409927894677526813263511517137434573022515625351197073824);
    e := Square(b, e, n, 2277625253387548773050836222144282001429162223638617787819795107505666852900, 7118910014781095259080807891013972927600984151043010906894207295608572766179, 716812601487722469902900389041882016895582883544412760554003577086253172289);
    e := SquareTimes(b, e, n, 7118910014781095259080807891013972927600984151043010906894207295608572766179, 6134593861319037289789948958364387858537729574311061636944645575245153625187, 20836875502734490538616539113508447293565530635127401309712190939116447571734312053933220940312487988021682556532847305929054323768979609760821685848446);
    e := Square(b, e, n, 6134593861319037289789948958364387858537729574311061636944645575245153625187, 5328262228400811278332535113572013722887469185981759636883888747666703065620, 5200112317338540982636670031215766069954188795339230590273917206478165979241);
  }

  lemma PowerRistretto2(b: nat, n: nat) returns (e: nat)
    requires b == 2975531125133123119648879457563281269120703404158613135195788908093573672641 && n == 7237005577332262213973186563042994240857116359379907606001950938285454250989
    ensures e == 1919316263432628843607759 && PowIs(b, e, n, 5926022464772768746530451445181677779226976856919225296387440819281864285959)
  {
    hide PowIs;
    e := PowerRistretto1(b, n);
    e := SquareTimes(b, e, n, 5328262228400811278332535113572013722887469185981759636883888747666703065620, 5068113050575366065211048013365614901180335073665548033998180864435499602813, 11672846401076975277871088610673925800478946993168237787935673640354265823512479913257488914652403559280645480585117192520672423100935251274230676739583);
    e := Square(b, e, n, 5068113050575366065211048013365614901180335073665548033998180864435499602813, 1718495378464035805711659598336842377855300719744370394524983500545235327609, 3549226212270068182703716758984459870079339640861338349672047624635202732240);
    e := Square(b, e, n, 1718495378464035805711659598336842377855300719744370394524983500545235327609, 6887582957483371436589356537548330497280761093428025289515474281310098191368, 408072970822675715363920531931217984721970428692002349462506451863086918317);
    e := SquareTimes(b, e, n, 6887582957483371436589356537548330497280761093428025289515474281310098191368, 5526015572155153395405326310132533924072550694568389843727123037820615233716, 19504700037029163548704398669615766850409078121165660959366230304784263732294308131047933860834400460335196225692802237609044558414436409154089290826812);
    e := Square(b, e, n, 5526015572155153395405326310132533924072550694568389843727123037820615233716, 313295167023036127677692683007909182448531532354115392544593201192198975498, 4219541877838082121441762594916122368405195940579732129189064588038712902622);
    e := SquareTimes(b, e, n, 313295167023036127677692683007909182448531532354115392544593201192198975498, 4031628884245940659201867650444596229884128510765748985336198123431516081234, 40356452314423706170182315221585238577503519426112407587780169844349253612189008836378953843200505492763215197656673744464292688486362008050642162970);
    e := SquareTimes(b, e, n, 4031628884245940659201867650444596229884128510765748985336198123431516081234, 6756559511649337746891729872501579109041184293156758715679779586439926903175, 6682926522878648716367713229397941528641835863843908746346637211984158855257627686505296191009804516823022541642126625024551847003353721364837683516689);
    e := Square(b, e, n, 6756559511649337746891729872501579109041184293156758715679779586439926903175, 2652227010534551215791592018804486517511722043694244659468408616470126681483, 6308009016525761942086344059659889438885383896634588053859806720120039198078);
    e := SquareTimes(b, e, n, 2652227010534551215791592018804486517511722043694244659468408616470126681483, 462477126691646604852233844056087044348329091629879729366238054346830152651, 2892191047459677968978116647543911282916156625131742423078131275619244991158912715460377841274317735162708006538094056848994975831717226285848506836582);
    e := SquareTimes(b, e, n, 462477126691646604852233844056087044348329091629879729366238054346830152651, 1092123562769034915971588250726813403492448076436788258539094413809413206452, 87939928160729826544889993695735403487455655629889522174987398636925809049023063170942526919467191230791281418812179905679283164158624282782765915001);
    e := SquareTimes(b, e, n, 1092123562769034915971588250726813403492448076436788258539094413809413206452, 5421557474433518068047149429459997187784186647317253377785834519056766138523, 490398512917026314196746093747074048749251575573200128775499240797536958270891351928366467070167302517956806079668689114227254612447074130551660956969);
    e := SquareTimes(b, e, n, 5421557474433518068047149429459997187784186647317253377785834519056766138523, 3254905801580584261843399729954591176081151368565146701884286132368072336150, 12085196672520754636301602048004374641747066730122805917535041690017298707626262382363047274319697630251811482661881713160298473017755364402389114613551);
    e := SquareTimes(b, e, n, 3254905801580584261843399729954591176081151368565146701884286132368072336150, 1296534272086845583837664037449927365436482738856045993470301139685861520644, 4355945516218019955516607569560343462082103015014944004590393077726736204047876892822755154982894590096597767880677882633501780681845531136302596491104);
    e := Square(b, e, n, 1296534272086845583837664037449927365436482738856045993470301139685861520644, 4891654009435638651280300093915597791732668469769240570550354040973374778531, 232278544037743409402633742741489526635506798776761523179340927855640745345);
    e := Square(b, e, n, 4891654009435638651280300093915597791732668469769240570550354040973374778531, 4306494374039268621827171544403568333158836266692698756504493953554035962412, 3306378403655771368570170992535554617725090283218582325744078367960317885041);
    e := SquareTimes(b, e, n, 4306494374039268621827171544403568333158836266692698756504493953554035962412, 2554917143540569773049038972209925517271115854055866791970506021220672124889, 7625237211259270968039107882933435136491027408740752917221662249491553837448063362445285058368783580429643203007205898228456833137242002607097954611635);
    e := Square(b, e, n, 2554917143540569773049038972209925517271115854055866791970506021220672124889, 1328035523556881608489263363901372640252801584734533986571099052849634959140, 901975484280853420466659436785117227143916469076913563689415826842162770529);
    e := SquareTimes(b, e, n, 1328035523556881608489263363901372640252801584734533986571099052849634959140, 7134371117446103865216959443592411193561527779451123840030946110144305821304, 725145196381785255418787024655717930150630489480855585175308570085992035339952375640070313421940328995939980439146087849323510198371854688625693891064);
    e := Square(b, e, n, 7134371117446103865216959443592411193561527779451123840030946110144305821304, 188523677428841010405736405542353609829253288886862151447453405257337346146, 7033192208788082952306392398647388026080624450322344746904632466219176001430);
    e := Square(b, e, n, 188523677428841010405736405542353609829253288886862151447453405257337346146, 5950937928174422822158710504629254416731799558887744948453710811854862771087, 4911033516764961113266410286131799797759606495754713068019023056507557161);
    e := SquareTimes(b, e, n, 5950937928174422822158710504629254416731799558887744948453710811854862771087, 411825343483996257611815539872320170345517991326091655106628756551513621766, 14560504766701766813413446357420746401098056956947832955225496717899159268880410251109264895216149479941630192971859471412464698033093214019198387891367);
    e := Square(b, e, n, 411825343483996257611815539872320170345517991326091655106628756551513621766, 7117563868734802047275881506376221479291359384108005754928868625801065620275, 23435122679320949360032882842855799009646141289690389997686380518512558229);
    e := Square(b, e, n, 7117563868734802047275881506376221479291359384108005754928868625801065620275, 3989969181280255186335235942736903610090399073381571776800577477124224777513, 7000093461886419640176658148028078817316447188587050307166264379662373591808);
    e := Square(b, e, n, 3989969181280255186335235942736903610090399073381571776800577477124224777513, 3490372181868742354696434686493642367696352843075611705518930043419877366590, 2199784689600125831495361533266038260089526768351229912636378657013665269311);
    e := Square(b, e, n, 3490372181868742354696434686493642367696352843075611705518930043419877366590, 5783831035136462902736562723384550844154587593134393782326140327927951970163, 1683389329714183580856839896279892454157958933544997528472817327112424247733);
    e := SquareTimes(b, e, n, 5783831035136462902736562723384550844154587593134393782326140327927951970163, 5858869158663132591161194241788209898664931923963506911211883414311703712731, 13754245910108578042117510921044766836459187991915344384723589402650946805855800481647792405088757563761969159457885343953807343688477342279164863634182);
    e := SquareTimes(b, e, n, 5858869158663132591161194241788209898664931923963506911211883414311703712731, 907442934358854047637305936318112521146504401428409400736707451646556972182, 14113449997263841456967860064831315956121864293689062166716391118804931740792638422529667368804677982988947314451086502526549742303736117761634380961071);
    e := SquareTimes(b, e, n, 907442934358854047637305936318112521146504401428409400736707451646556972182, 34280521956364557954289963722217602328213955130427748008874423572606765166, 338566697317995090829210634025674648535950759946126470171122332798748547651841230181212362780047103114597907929381981334307589726446128126751158258062);
    e := Square(b, e, n, 34280521956364557954289963722217602328213955130427748008874423572606765166, 1655621807837006465932773618913923224169161433653386660467148861137362138909, 162381274001170965000799845407059922472698293384654856034619275644273123);
    e := SquareTimes(b, e, n, 1655621807837006465932773618913923224169161433653386660467148861137362138909, 3497669712650507613284074748382949791879406402900035761104143144401838626913, 1127010252198077260361021995093033466620588859181652141131709008355114263522861693682436527123029868276243203413571630840792843295624184273296248416072);
    e := SquareTimes(b, e, n, 3497669712650507613284074748382949791879406402900035761104143144401838626913, 753551993235866361145761596977529406829346963604980905870871845897124306118, 5029944381550753587350503325201773493154108698545790711035874335465235735497618107459249979732325198949631819175628340960782347435290845162194367459399);
    e := Square(b, e, n, 753551993235866361145761596977529406829346963604980905870871845897124306118, 3187299450540158386272385638157220676011797409842971349402041092809058969494, 78463475043923782534844077036689421531659785746239363313539174710944100870);
    e := SquareTimes(b, e, n, 3187299450540158386272385638157220676011797409842971349402041092809058969494, 4814489234450794997775462157635832024044394994990440081038285557998157235378, 4176873532825916610247209570253870138847066701954560776077285029781000126307670656622966577021276751957419905045902131657900092271066248111803307831482);
    e := SquareTimes(b, e, n, 4814489234450794997775462157635832024044394994990440081038285557998157235378, 4339137218290786660696936436234341818784697761099804949106833620563200005055, 9530288111085530669134636059747149845019969689151698395125890214734997003330166313164950526960605708153857113224099180911014470187598307835842151905401);
    e := Square(b, e, n, 4339137218290786660696936436234341818784697761099804949106833620563200005055, 5897749416546717959019417165617255298286931755725995111976212482817339864010, 2601643953146822065534255971417295554936534287828202089982707621368655699635);
    e := Square(b, e, n, 5897749416546717959019417165617255298286931755725995111976212482817339864010, 3029620220494042437595480225515917770505784807488588185628780230631389103208, 4806331542610083820294542803007300119364608280262223087347577218968103422828);
    e := SquareTimes(b, e, n, 3029620220494042437595480225515917770505784807488588185628780230631389103208, 145576197706388446385893457198334689586900576946925209569102000123920416682, 3773826863455597523735516152703200548088429072483790558938978149617271129194507320125625581023188297049757440693914198791292714305940558697553353989678);
    e := SquareTimes(b, e, n, 145576197706388446385893457198334689586900576946925209569102000123920416682, 776249330576967542000958982451847261555266920670581560480256850267135775204, 8713373568737933913425928148211353893801068610178117764891395805187073439872187030892673847797998661232351923425118751304017112853422210670233003520);
    e := SquareTimes(b, e, n, 776249330576967542000958982451847261555266920670581560480256850267135775204, 6339953942788253099119621015750423195978271047850722805158757607715429597019, 247746807887619163259588029673299199715684476124586530389113232285202400110877165984075033359953856461577878011117341739565673538085398670300166713833);
    e := SquareTimes(b, e, n, 6339953942788253099119621015750423195978271047850722805158757607715429597019, 5926022464772768746530451445181677779226976856919225296387440819281864285959, 16526382340777774489422781960446001754606593942420190489736817768147053543356058998798809381907147739232746994974153956550279503333801621201336721546778);
  }

  lemma PowerRistretto3(b: nat, n: nat) returns (e: nat)
    requires b == 2975531125133123119648879457563281269120703404158613135195788908093573672641 && n == 7237005577332262213973186563042994240857116359379907606001950938285454250989
    ensures e == 2110310549023759765146016544777983296 && PowIs(b, e, n, 5108918096134486241589130197423148228487798467836644482408977036971758488445)
  {
    hide PowIs;
    e := PowerRistretto2(b, n);
    e := SquareTimes(b, e, n, 5926022464772768746530451445181677779226976856919225296387440819281864285959, 1634748694155654526929866670586332761474284327209465085384214812600691698804, 14438835786651128560830980129000450708367221883114839826763714154484617849416355259623638082471674142631992080547167730541230934433430412171104242156753);
    e := SquareTimes(b, e, n, 1634748694155654526929866670586332761474284327209465085384214812600691698804, 1284026807455423192505295227703756590935588600435245165864999389554859882210, 1098772011764950821265192212267570692472387756384567700559486170692881707649178916100642447795782124818843572664614238384343029612775791855801754613414);
    e := Square(b, e, n, 1284026807455423192505295227703756590935588600435245165864999389554859882210, 4922958007741334514757819739850152635450286630572702416909079362587933465427, 227818650220237476474932432871507340573256914757070800796703889768355180757);
    e := SquareTimes(b, e, n, 4922958007741334514757819739850152635450286630572702416909079362587933465427, 2841796994325649066628958737266243689728717573594986359959079950024344783635, 9964553719095993839373994228753665418807751249015856353979265585935066009391458339439417680977137465143556486138944467043561333182010351792424649699886);
    e := Square(b, e, n, 2841796994325649066628958737266243689728717573594986359959079950024344783635, 6011524715131614611361876334011909288835080468181780963744648963913892439419, 1115904923750968676757609721206614093961895383549915991110743907962918343654);
    e := SquareTimes(b, e, n, 6011524715131614611361876334011909288835080468181780963744648963913892439419, 564213561823226683705834385496685200092098259774372862150619757570851640094, 14858496424520320931672505180281137092391437861447821310860173631674516678052936045741917403722375791690456702834274820561247669814793089007079206305863);
    e := Square(b, e, n, 564213561823226683705834385496685200092098259774372862150619757570851640094, 2191644937432920979774799744878032042950352474757909358905199947905401017033, 43987384000690358115295820233127612029959401859484029928307500708485305927);
    e := Square(b, e, n, 2191644937432920979774799744878032042950352474757909358905199947905401017033, 112756254977436283336307637432760190619997649681595324845101718754406900906, 663714775461865693589859064882312661038088246100156288787954061756344261347);
    e := SquareTimes(b, e, n, 112756254977436283336307637432760190619997649681595324845101718754406900906, 400934171919470011904101983247044467996775968726298184916411961360045511893, 5227413754220620859404137343637418581903047494335510250007894257350455445230936970195712804863753561230556614559656355546260609653368841508175005547);
    e := SquareTimes(b, e, n, 400934171919470011904101983247044467996775968726298184916411961360045511893, 5152522076661186630784708529908289821202155929483373122171021069965002548643, 66092432524254107223958103379910457187278284701128349490225841990996533164006091912824804003285919421406281339132934299188612666425462460830535814894);
    e := Square(b, e, n, 5152522076661186630784708529908289821202155929483373122171021069965002548643, 4531195451704457469207016925014614825100777328164223857500024836172827618238, 3668434888821424615769565064967887932506987442403155565906095170844044547799);
    e := SquareTimes(b, e, n, 4531195451704457469207016925014614825100777328164223857500024836172827618238, 5533442335595301268616552986103002249730851036379953049301492321863584987914, 8441724636701542145158691663530686031647360124084511958649389079484592079781774780930868357082106372792324687788313050687853337688606581575376526703010);
    e := SquareTimes(b, e, n, 5533442335595301268616552986103002249730851036379953049301492321863584987914, 6902489249525100973640825952337627475852702965359600519553582588475731061499, 12589148810304225672154127181434229133789637938173577216518609937279210802156325781108787106934951548356262654931078832042258184651458355821228947524333);
    e := SquareTimes(b, e, n, 6902489249525100973640825952337627475852702965359600519553582588475731061499, 3828503647564192572848597344725766666563865501677396097174385626016505419505, 19589216586121889223116568618147053441009965252131140155150252160364849839198697538768262961369813681838178730613903524729262868189036633044870425087624);
    e := Square(b, e, n, 3828503647564192572848597344725766666563865501677396097174385626016505419505, 1243211742153262088158510029980596133359341843445431124147336639324092584751, 2025345983609897847431867966520685433503362266568876651933242385341722155066);
    e := Square(b, e, n, 1243211742153262088158510029980596133359341843445431124147336639324092584751, 1599615131057285828866401146134626107165134744942877434958374434407199394072, 213565599654751964309269431024550137844597512956908796027986471929634488461);
    e := Square(b, e, n, 1599615131057285828866401146134626107165134744942877434958374434407199394072, 2949325410373890190800257305559786875344888621327205062891411237085095917467, 353567306279545881068960754961806232935018973220824130962068308253273561753);
    e := Square(b, e, n, 2949325410373890190800257305559786875344888621327205062891411237085095917467, 4901494658709632944356793330894408093320096553969786363990140452770157463146, 1201950210391243580314786332575322805837079904720168831627650435218909882187);
    e := Square(b, e, n, 4901494658709632944356793330894408093320096553969786363990140452770157463146, 67210548745676515025393336008340302021520231139563852896400658780372942653, 3319694814746175231177657945279081277758448209010645936447652082816322285667);
    e := Square(b, e, n, 67210548745676515025393336008340302021520231139563852896400658780372942653, 4845517747046130115893425722389956509915260715421382383601860581212619372805, 624188804944949486659628520052471236117362367496213899493063456861430036);
    e := Square(b, e, n, 4845517747046130115893425722389956509915260715421382383601860581212619372805, 3041283684093752129064944244956083837717697560019017553972313346412005839204, 3244303460326191365174734838489984489350432809122442799626763639539763437289);
    e := SquareTimes(b, e, n, 3041283684093752129064944244956083837717697560019017553972313346412005839204, 2836034540537431034138432208359246862746003057115975151340014098249207601945, 3802939831725542967877127677553963340298990197994955120656476992579286500244819634130241195748271216939822819728853415571207935172503423715326105530099);
    e := SquareTimes(b, e, n, 2836034540537431034138432208359246862746003057115975151340014098249207601945, 3187140821721894353618108366811835673416535178079388375617925961447358219684, 3306957564149380507351201906087539195010542471080686142841923672248702967750829135299283588931853646261302733796362559903941090472029928103538484519969);
    e := Square(b, e, n, 3187140821721894353618108366811835673416535178079388375617925961447358219684, 6577519826477952044340455416298967066679499882711771073576371101812459485571, 1403600772300434067651331196903265546646486090538217246660418379142847340065);
    e := Square(b, e, n, 6577519826477952044340455416298967066679499882711771073576371101812459485571, 2401245403296034540885638008628402679457861095487132852146354580796108352545, 5978130955601478783350093657266379622103444457909005093930741886587625001864);
    e := SquareTimes(b, e, n, 2401245403296034540885638008628402679457861095487132852146354580796108352545, 6154327589896182874853646137040800447085038771489091226940757116181492805501, 2370711373187406495300147091906970470967028989271606107026520444965553880277292797161836725517089561473961626164721059033963142042300631620278171095316);
    e := Square(b, e, n, 6154327589896182874853646137040800447085038771489091226940757116181492805501, 1215070201787233036237322524270237438455081366144903010605008938756489870586, 5233621513625983521000447087253254346433962791098202422540445776612972272235);
    e := SquareTimes(b, e, n, 1215070201787233036237322524270237438455081366144903010605008938756489870586, 4228476172108173335766456675138617352296300135478430854887532983529551495557, 607027450759336135942175893277354047887585812068077575273394937245492215395030602621513001173907785223606233129811348862515341096594472547499075671611);
    e := Square(b, e, n, 4228476172108173335766456675138617352296300135478430854887532983529551495557, 1553866316766494876938242830088053282898575006076915692719743810430571984465, 2470636584016230770986975666986549136313990552616330985476267005807380263656);
    e := SquareTimes(b, e, n, 1553866316766494876938242830088053282898575006076915692719743810430571984465, 1964504030525941301007772817929312504219048239494217663306458241798312497401, 992733997926371761808995495868374705067620139863736865542413030083596360057366598386887702973338940887260913940779584037091731887226656484472597163016);
    e := Square(b, e, n, 1964504030525941301007772817929312504219048239494217663306458241798312497401, 1934864863597291078908523755814458968039295358893641397009201923189237688007, 533269740462918414358978448761478375767783079223030433681294045046662561746);
    e := SquareTimes(b, e, n, 1934864863597291078908523755814458968039295358893641397009201923189237688007, 5403983770020637995369910622100528755303927814972445134569818020607344016665, 1539241862584189541214324222227973533582928890180484983230215572924183093708771861934964209225085462924626073554779257484248582487766821027132693658296);
    e := Square(b, e, n, 5403983770020637995369910622100528755303927814972445134569818020607344016665, 6131467129197495414970832159506060552218038931497891780818705387348542296172, 4035238093240688757490506925442918209422568978588489427198800436358936909177);
    e := SquareTimes(b, e, n, 6131467129197495414970832159506060552218038931497891780818705387348542296172, 2882225482160885780316560010687272457570431065029727441994334545566657781704, 15457327154931038010448535721208590193569282096195178165815495751547130464954912754051473726702690353302056910080813293679040410734776357622645290358760);
    e := Square(b, e, n, 2882225482160885780316560010687272457570431065029727441994334545566657781704, 82691383222472070697152000675180400723803281129756475743704768749880740703, 1147881349716991231887518784090801767248277123871736499868452187191129614917);
    e := Square(b, e, n, 82691383222472070697152000675180400723803281129756475743704768749880740703, 2698542322039748251634462633301378874339900111910406561664484890041300505165, 944847255702453138801855289985086600956375867374703496239383793673596996);
    e := Square(b, e, n, 2698542322039748251634462633301378874339900111910406561664484890041300505165, 3809468180146359459910186183693433351054705470360220535066658019739849137890, 1006235325650259946655448096362251267286747286524007187597433413675101520515);
    e := Square(b, e, n, 3809468180146359459910186183693433351054705470360220535066658019739849137890, 6011674262432527228394304166788677030577379388199044748020940612886621917821, 2005255856234549515034305136219826217657032534715044157850183821699941420611);
    e := Square(b, e, n, 6011674262432527228394304166788677030577379388199044748020940612886621917821, 3112878822973457355498141442896700898021756196555894873233038345807589726018, 4993809532328126882956497807537129409706806174203812216103159017646536635907);
    e := Square(b, e, n, 3112878822973457355498141442896700898021756196555894873233038345807589726018, 5108918096134486241589130197423148228487798467836644482408977036971758488445, 1338953585564126970176207371512957167638718721556232504637384575879589283011);
  }

  lemma PowerRistretto4(b: nat, n: nat) returns (e: nat)
    requires b == 2975531125133123119648879457563281269120703404158613135195788908093573672641 && n == 7237005577332262213973186563042994240857116359379907606001950938285454250989
    ensures e == 276602624281642239937218680557139826668747 && PowIs(b, e, n, 1)
  {
    hide PowIs;
    e := PowerRistretto3(b, n);
    e := SquareTimes(b, e, n, 5108918096134486241589130197423148228487798467836644482408977036971758488445, 4057725582371205017849475535164214452523009504820076776613830697808913246494, 10731575142071980246785818885765479295793088366921246470112279844703487026167159400162673091139282571403075684096231704828322297313428100575022385074679);
    e := Square(b, e, n, 4057725582371205017849475535164214452523009504820076776613830697808913246494, 1839136655941055691988266215693423423507233504633057998078493423662401169211, 2275131161070513957636305505667115368575773246239771793642918876077463822925);
    e := SquareTimes(b, e, n, 1839136655941055691988266215693423423507233504633057998078493423662401169211, 2354103722332992246856434369486896358644598491614374585173670538112436279537, 1390700436714763840561862574322570810759811994344022662488079794575730450618268842591516026967532579173067817524306864553450220308843900637735939473416);
    e := SquareTimes(b, e, n, 2354103722332992246856434369486896358644598491614374585173670538112436279537, 4920004540993080818926510171688855592961871752545423764577797010592978721295, 2278540635830570009210243309851800232858363882971397029430645280497757511248130640385351191537421358414393613041928367918510931213212428381317585911706);
    e := SquareTimes(b, e, n, 4920004540993080818926510171688855592961871752545423764577797010592978721295, 7071431110398115835782137419425204145035260496960588362887213967186149410889, 9952601088197396210518766457482308508881521659526263240074542021681518619415685511282995453494410942159019200308786423780559248205512335151407885405624);
    e := Square(b, e, n, 7071431110398115835782137419425204145035260496960588362887213967186149410889, 7033168557332178744724026851716211043078961682280489660056929063752281612104, 6909644799187711837033311224625183244956172886381278218875354076725916122253);
    e := SquareTimes(b, e, n, 7033168557332178744724026851716211043078961682280489660056929063752281612104, 756388708090973022785882083416756135475228330041905619567594630696580369677, 20337971851045922836156526432154519375611159891598897236296358886964166737396409778263244393520847506975656767196148037711167908197623978162683312964511);
    e := Square(b, e, n, 756388708090973022785882083416756135475228330041905619567594630696580369677, 6817163481479588957410688307179371689983837992724045920370346596396547862423, 79055331879187261091625398311235219050493237426898181612269428247626166554);
    e := Square(b, e, n, 6817163481479588957410688307179371689983837992724045920370346596396547862423, 569720305635546515374361406811570794840498633234037072277253241505365496414, 6421677783251102935587331043824533250787522236349206071844726029880569359135);
    e := SquareTimes(b, e, n, 569720305635546515374361406811570794840498633234037072277253241505365496414, 5626405160998682371803600734236927774292653128386453411800877056311444140536, 133453198594504719946191111677341118319236909353429833552627781492521598421718613791043509986436951369709954410875360033321879420595335250726957168700);
    e := SquareTimes(b, e, n, 5626405160998682371803600734236927774292653128386453411800877056311444140536, 3754783296966061661329265823458782680036096689860164850620636586113999896455, 13015701971344899486578992924752264449306490577734805771138139006597337818564807934527484712162828159016312447853969780343592160237646753148643879202429);
    e := Square(b, e, n, 3754783296966061661329265823458782680036096689860164850620636586113999896455, 2346674373723191331377566733531449705482701521793917209613737165026324328780, 1948098209476901246078112880231140588645122737065704820849403535937283519705);
    e := Square(b, e, n, 2346674373723191331377566733531449705482701521793917209613737165026324328780, 7129266507327595520505310256887840710655029161937432501048032358036505841461, 760933587440885121113167154250681117627777318943987482296345740896948168551);
    e := SquareTimes(b, e, n, 7129266507327595520505310256887840710655029161937432501048032358036505841461, 21952488637824817233942468974013434453895289446742614537758430225598509235, 20897546002742212285605648483689833876790282998297207700858896130133337664593093754409614068636336381867952797263572059971504718077386055594373810083934);
    e := Square(b, e, n, 21952488637824817233942468974013434453895289446742614537758430225598509235, 6254408338159910703737247688877505317459628674264582066067309561819804391480, 66589938648558040103527670392804443900014007710180134158821716605869205);
    e := SquareTimes(b, e, n, 6254408338159910703737247688877505317459628674264582066067309561819804391480, 5345391411404810418288101046996723597838208633604015262699350333929154546755, 16083407080335838112224911244507411192544855838960043704036740707933901769296725694161486650345642261245784214741709892335170492352625606014354124532305);
    e := SquareTimes(b, e, n, 5345391411404810418288101046996723597838208633604015262699350333929154546755, 1, 11748018269565658580246535508333329489214446459900040966706930618201950472074495775684417404932863331860537748047404877079058312146907248087203075251816);
  }

  lemma PrimeRistretto()
    ensures IsPrime(RISTRETTO_ORDER)
  {
    hide PowIs, IsPrime;
    var e0 := PowerRistretto4(2975531125133123119648879457563281269120703404158613135195788908093573672641, 7237005577332262213973186563042994240857116359379907606001950938285454250989);
    PowOne(2975531125133123119648879457563281269120703404158613135195788908093573672641, 7237005577332262213973186563042994240857116359379907606001950938285454250989);
    PrimeA();
    PrimeByOrder(7237005577332262213973186563042994240857116359379907606001950938285454250989, 2975531125133123119648879457563281269120703404158613135195788908093573672641, 276602624281642239937218680557139826668747, 1,
      2975531125133123119648879457563281269120703404158613135195788908093573672641, 2233364593245673852815932892735013076939656528578070433728021143254617821614, 918259049265850385831298250211759012539362291049224222049079815310237912731, 0, 0, 0);
  }

  /** Three divides the predecessor of the order, five does not: why the default s-box is a fifth power. */
  lemma FiveIsCoprime()
    ensures (RISTRETTO_ORDER - 1) % 5 != 0 && (RISTRETTO_ORDER - 1) % 3 == 0
  {
  }
}
