/** The root of -1 as the module computes it: pow(2, (P - 1) // 4, P) (src/MQTTBridge/ed25519.py). */
module RootOfMinusOne {
  import opened PrimeField
  import opened Ed25519

  // `TWICE_k` is 2 squared `k` times, modulo P.

  const TWICE_1 := 4
  const TWICE_3 := 256
  const TWICE_5 := 4294967296
  const TWICE_7 := 340282366920938463463374607431768211456
  const TWICE_9 := 1444
  const TWICE_11 := 4347792138496
  const TWICE_13 := 357334617794433607688082344039363064508867208544256
  const TWICE_15 := 28092845524568158024791590609627175827827414370421258021483527141564719965812
  const TWICE_17 := 12565166502941322751976803689073864386325995543907882077862608643376321758186
  const TWICE_19 := 24846890677211230406576304024989772719436748008737733243761910568717529817288
  const TWICE_21 := 2035320457746180764523411894713288945845486468538341162343026252992768376385
  const TWICE_23 := 25450102324152246401398237710584691482652172786521330672102596425501290295553
  const TWICE_25 := 53852699340892335586985653879438072956937874388724126572479524781208804515579
  const TWICE_27 := 49460447498920601503978595589602727930452291028767490482070407648665110460318
  const TWICE_29 := 1663098336120035359655049128321810124623716587921681498072746089536428378824
  const TWICE_31 := 17749321624456731708406305830577373770451954769266428666655049292595219215907
  const TWICE_33 := 4765661022254249145780065448392613133292713762229155703583663225719446227509
  const TWICE_35 := 4528246167024179942759652825396191185774346509455702645065336596318807720593
  const TWICE_37 := 32493448226200513076197702922465594757049881249554297548549435461312105872363
  const TWICE_39 := 2307574377944575212615186702464469733749200810162090227131581128188896297162
  const TWICE_41 := 25451006141644834003973838858499674160249075273242788726896522279552980883334
  const TWICE_43 := 34366049240558920832265671204773269656279024014798928850109441603935036813923
  const TWICE_45 := 5341300065514723608912450234797129606760219520841198900211201191723385179011
  const TWICE_47 := 29118144363370964360189627794518858975782814142253162690646201647574635097625
  const TWICE_49 := 50416480442527332568489257499347016260561391576511500942698662269434699587818
  const TWICE_51 := 32197289725079857979330211828342258631421244797229386530857122888718641201325
  const TWICE_53 := 31388008939924367132922854403015116287633968044022759403646556081107664193103
  const TWICE_55 := 26858259812396268266885164245598393190449189745338488014578357080802745347759
  const TWICE_57 := 44570937990210515475856163114814731938514001341020850025737100230372467990193
  const TWICE_59 := 22062206863317299128569900079383242670883638282964007570660848567251400967564
  const TWICE_61 := 56621567284319873503790568087470474801791683205098394962913486381586348754870
  const TWICE_63 := 1467298903972049253291672748577267460608160942429463577104136353454976072709
  const TWICE_65 := 44027601469430061652798255673428114198961929326842697976408004461131176277053
  const TWICE_67 := 27140845962490591067047473454105094360590660621230250284639609459403327723577
  const TWICE_69 := 56384533716114261432044424365779128168161150996874766114865346442982670233735
  const TWICE_71 := 4644240796981364074465973117883623081163071601849291269317116317426037285523
  const TWICE_73 := 7506232952296491658259024686602322720326191055558145420872570421238446249505
  const TWICE_75 := 4530970029267022662125867228768544006031450128242874239167323897074875520354
  const TWICE_77 := 1089469951146836549259520277294165647660785073963186285877920034499982916020
  const TWICE_79 := 41287843394911268812598765192739069537961416044855886339646480010036505757579
  const TWICE_81 := 29635195976181844699901895526569584959374141598056023270563552703302557197451
  const TWICE_83 := 34857743052521727570859426713380192420403810733928199709921669955655898036452
  const TWICE_85 := 10450666648292866358694557688977200589291401876268436468754164881902696983481
  const TWICE_87 := 3953018491473729989216322319619244012446861271389145940232467899927087282691
  const TWICE_89 := 20157992395883183655042235308101297449515341574731826797021620588976580661356
  const TWICE_91 := 15476461823102691098397792304238532677609945363087671109039363023467269872860
  const TWICE_93 := 35997104109145804454345435243336529382766466951865609509274142751369272529827
  const TWICE_95 := 38656137193284143232776517547520113200008801746051639401551430402869615462614
  const TWICE_97 := 4170412270512599130846026332017118154296664346717080496050091152932797374549
  const TWICE_99 := 10023653461878785494981626756515267814749543020071958589821523858464990116859
  const TWICE_101 := 49954592390113803748085305440210198620888962496121325629807461147050541754462
  const TWICE_103 := 29931846364678878765149383278940765127082911763472105235690956833394192036231
  const TWICE_105 := 24777971732241907952620755894889965940768975111661157580627455610621280210622
  const TWICE_107 := 54243542635436332260892684304177624961157684645120398393122314136377457367770
  const TWICE_109 := 14331600175256610839812697926325105373014238825293459713805002734563612028786
  const TWICE_111 := 5727240948099675946637457319441300337430583683780994636226742037602971554299
  const TWICE_113 := 57278817593193192034037710199647904149987367011543998759944984204964766428887
  const TWICE_115 := 5999747283714129696100917989974710725742792135694423177451565096445542861560
  const TWICE_117 := 48070523430633111784927720347779435601317329895052815260736313652836645837613
  const TWICE_119 := 30542995508062841194513114263087415412528472231894167092711416555509214636689
  const TWICE_121 := 8086721131582064676156054761219725067890289682892777299742435635759779746956
  const TWICE_123 := 42005454026193594338009351694430712488151250151541202910684095909793940379096
  const TWICE_125 := 9444055183381041289956520349804163888717527114027921215588002661758801198425
  const TWICE_127 := 43111770150901600646941901470387687914465540996631418738615997879900636686163
  const TWICE_129 := 8375038145634112657136970972048559538819477681253623334929901127288938173280
  const TWICE_131 := 1096543933140897252039673426930954877546340272365653780978094175701705313707
  const TWICE_133 := 4374939412954791117689449511924649315158101188707977573028157173650003245129
  const TWICE_135 := 22317544698112136997756227230898346841585235030296964613195181403543570539499
  const TWICE_137 := 35297240780546712714040268924619384997429351887580027181410662000365624184834
  const TWICE_139 := 55648260487295669387886043384861389768398337013540902420645967526368063041618
  const TWICE_141 := 18142462411799955128302542732997560209691480909253107079955053778258872233456
  const TWICE_143 := 2718051122855413571904568001775008072957135224178440980765646507207825412304
  const TWICE_145 := 57177863538131698971336624689200005416234136770732033418832416362077712795109
  const TWICE_147 := 34047917224130638039388824805032010280236526070014489450382638159003227520283
  const TWICE_149 := 13618005514493852795520705404559609666231754640743366596972494395999505091045
  const TWICE_151 := 27802449234177595114220013165868146640735092618017219360226544495111831270376
  const TWICE_153 := 52829413420068471559419001136867921716396564975217400692214088814637318777953
  const TWICE_155 := 13736937043369606415230874860774749608508730043161573349546589298521010522106
  const TWICE_157 := 46621159606349135374784787037590393185009392360123712812738836563061398923576
  const TWICE_159 := 52778153386620232283970501670399898053748836898888758861991251137507017917330
  const TWICE_161 := 53163735582118849473997828263573870790494200371440430596295738946950494932578
  const TWICE_163 := 14276600162429546981804003598574498294505808763801993616848328104591932235542
  const TWICE_165 := 55871195411981714089192008562317681430352897268969699357606832349419000786614
  const TWICE_167 := 57837761517468157817537848286726391391509829006954084554628271998508119940531
  const TWICE_169 := 31368484338687221351877267020214106390159237262774573387685204907328181754518
  const TWICE_171 := 20349509969076909112535788211831396050401233304768909021265303752114704795864
  const TWICE_173 := 28055862232349423948625755444324954151690164990623233289150842822565539200294
  const TWICE_175 := 32881853749558494414792854979029057749038909842207823749306825929403135093584
  const TWICE_177 := 1369228993672833299575812758784570023855197799197125056196502801345863337814
  const TWICE_179 := 24876710865185410401615357378603630022810591897856143189554584836082229930465
  const TWICE_181 := 1643384377406054708548122445294073162260025714877107929850346058637638895235
  const TWICE_183 := 25708037594503282616748272774757878704967432641836223442220192713849318860372
  const TWICE_185 := 16121208148495976051827766819301746599845771366683940289417929937464013348979
  const TWICE_187 := 3024583929429111927562024556663399096815482095659844567933592958552736014431
  const TWICE_189 := 48466195671613680425752106930690905356568353973308916767712299523456319613528
  const TWICE_191 := 49746283444748318666375369552074865465412030400316306521254463623823439454079
  const TWICE_193 := 44328464236572512308018026979505081093924522156855965345485179423111402510261
  const TWICE_195 := 14558833039433531308069393246087475669745226220048017051127768926953364139863
  const TWICE_197 := 33062655150357158891610755088156937266669697821886036946908847191342857103891
  const TWICE_199 := 42504836344739741458642146984942914362070113711837865616901045369463888025091
  const TWICE_201 := 22113069510672882452996985616216522578390924971881138528126922167207875727486
  const TWICE_203 := 20468800346010896316451087260515801523821208020783976585750013715099371758193
  const TWICE_205 := 32033071858791951319957528343192625534029089247829600475779483162841591774794
  const TWICE_207 := 5247836496617230441656243440510104789837834897065513037831543555963466681098
  const TWICE_209 := 49559473513036478524269573129667958196353902577303975115153170095714080070924
  const TWICE_211 := 56262993010775914547332588674437249845569297192621181554880602893863514151419
  const TWICE_213 := 34288628513973626548952280947424888224354047533595532401108670712089889626068
  const TWICE_215 := 51832707671013123844398138890907089622499388131653250667601614300076649093775
  const TWICE_217 := 23521824246802163590858841918184161193010693328253532445625314371463593996161
  const TWICE_219 := 18285285005257895191202110324812101003733224197273335460132809424393582069208
  const TWICE_221 := 47662955877922183985318058323765180519099057813096661023484134556901809269336
  const TWICE_223 := 42633316308663477820387083559170110086939405793032144405254443322573757653762
  const TWICE_225 := 47484176721632843066924446963010842155175766728146307563020136750444493122669
  const TWICE_227 := 336549193446538623494116171420733976715797837520355681751988048705200187694
  const TWICE_229 := 39006361545516805635134724515538855185499597074307208149139672737176396789718
  const TWICE_231 := 7481612986650188643333545027463211286574826767246787483359539267228114075627
  const TWICE_233 := 4115839983351727054108020542619583251693481634772705760891182864011801782606
  const TWICE_235 := 27247948442199726077600772976081379596223190550598652336966215571844706433311
  const TWICE_237 := 9868439605876896135286611141720472169149999480471066799303029631840989394565
  const TWICE_239 := 28542508920831274418581156790025480164677452394839036667611938844644544240121
  const TWICE_241 := 17206899487651948477411068994856615302536390468960849297642907528668334984675
  const TWICE_243 := 7659545298794610802229397579982159313959703069379542306046244394845541630220
  const TWICE_245 := 2801438469703212181842928639321255855661653685361094298601087492444326784797
  const TWICE_247 := 7675647790857589744582803305585394548251432505189909778316802464160259091657
  const TWICE_249 := 51821857300731322177223093444784727588023480314699963417831221251200591251546
  const TWICE_251 := 33948839485075122006110041761659190396723552706788656131878733345159638354111
  const TWICE_253 := 50836717868059213499971612716193805227924205181361665010520754300396904912574

  /** `x` is 2 squared `k` times, modulo P. */
  ghost predicate Squared(k: nat, x: int) {
    Powers(k);
    Same(P, Pow(2, Pow(2, k)), x)
  }

  function Fourth(x: int): int {
    var square := x * x;
    square * square
  }

  lemma {:induction false} TwoSquarings(k: nat, x: int, y: int)
    requires Squared(k, x) && Fourth(x) % P == y
    ensures Squared(k + 2, y)
  {
    hide Pow, Same;
    var e := Pow(2, k);
    Powers(k);
    PowAdd(2, e, e);
    PowAdd(2, e + e, e + e);
    SameMul(P, Pow(2, e), x, Pow(2, e), x);
    SameMul(P, Pow(2, e + e), x * x, Pow(2, e + e), x * x);
    SameMod(P, Fourth(x));
    SameSym(P, y, Fourth(x));
    SameTrans(P, Pow(2, Pow(2, k + 2)), Fourth(x), y);
  }

  lemma {:induction false} Powers(k: nat)
    ensures Pow(2, k) >= 1 && Pow(2, k + 2) == (Pow(2, k) + Pow(2, k)) + (Pow(2, k) + Pow(2, k))
  {
    assert Pow(2, k + 2) == 2 * (2 * Pow(2, k));
    if k == 0 {
    } else {
      Powers(k - 1);
    }
  }

  lemma {:induction false} FirstQuarter()
    requires Squared(1, TWICE_1)
    ensures Squared(65, TWICE_65)
  {
    hide Squared;
    TwoSquarings(1, TWICE_1, TWICE_3);
    TwoSquarings(3, TWICE_3, TWICE_5);
    TwoSquarings(5, TWICE_5, TWICE_7);
    TwoSquarings(7, TWICE_7, TWICE_9);
    TwoSquarings(9, TWICE_9, TWICE_11);
    TwoSquarings(11, TWICE_11, TWICE_13);
    TwoSquarings(13, TWICE_13, TWICE_15);
    TwoSquarings(15, TWICE_15, TWICE_17);
    TwoSquarings(17, TWICE_17, TWICE_19);
    TwoSquarings(19, TWICE_19, TWICE_21);
    TwoSquarings(21, TWICE_21, TWICE_23);
    TwoSquarings(23, TWICE_23, TWICE_25);
    TwoSquarings(25, TWICE_25, TWICE_27);
    TwoSquarings(27, TWICE_27, TWICE_29);
    TwoSquarings(29, TWICE_29, TWICE_31);
    TwoSquarings(31, TWICE_31, TWICE_33);
    TwoSquarings(33, TWICE_33, TWICE_35);
    TwoSquarings(35, TWICE_35, TWICE_37);
    TwoSquarings(37, TWICE_37, TWICE_39);
    TwoSquarings(39, TWICE_39, TWICE_41);
    TwoSquarings(41, TWICE_41, TWICE_43);
    TwoSquarings(43, TWICE_43, TWICE_45);
    TwoSquarings(45, TWICE_45, TWICE_47);
    TwoSquarings(47, TWICE_47, TWICE_49);
    TwoSquarings(49, TWICE_49, TWICE_51);
    TwoSquarings(51, TWICE_51, TWICE_53);
    TwoSquarings(53, TWICE_53, TWICE_55);
    TwoSquarings(55, TWICE_55, TWICE_57);
    TwoSquarings(57, TWICE_57, TWICE_59);
    TwoSquarings(59, TWICE_59, TWICE_61);
    TwoSquarings(61, TWICE_61, TWICE_63);
    TwoSquarings(63, TWICE_63, TWICE_65);
  }

  lemma {:induction false} SecondQuarter()
    requires Squared(65, TWICE_65)
    ensures Squared(129, TWICE_129)
  {
    hide Squared;
    TwoSquarings(65, TWICE_65, TWICE_67);
    TwoSquarings(67, TWICE_67, TWICE_69);
    TwoSquarings(69, TWICE_69, TWICE_71);
    TwoSquarings(71, TWICE_71, TWICE_73);
    TwoSquarings(73, TWICE_73, TWICE_75);
    TwoSquarings(75, TWICE_75, TWICE_77);
    TwoSquarings(77, TWICE_77, TWICE_79);
    TwoSquarings(79, TWICE_79, TWICE_81);
    TwoSquarings(81, TWICE_81, TWICE_83);
    TwoSquarings(83, TWICE_83, TWICE_85);
    TwoSquarings(85, TWICE_85, TWICE_87);
    TwoSquarings(87, TWICE_87, TWICE_89);
    TwoSquarings(89, TWICE_89, TWICE_91);
    TwoSquarings(91, TWICE_91, TWICE_93);
    TwoSquarings(93, TWICE_93, TWICE_95);
    TwoSquarings(95, TWICE_95, TWICE_97);
    TwoSquarings(97, TWICE_97, TWICE_99);
    TwoSquarings(99, TWICE_99, TWICE_101);
    TwoSquarings(101, TWICE_101, TWICE_103);
    TwoSquarings(103, TWICE_103, TWICE_105);
    TwoSquarings(105, TWICE_105, TWICE_107);
    TwoSquarings(107, TWICE_107, TWICE_109);
    TwoSquarings(109, TWICE_109, TWICE_111);
    TwoSquarings(111, TWICE_111, TWICE_113);
    TwoSquarings(113, TWICE_113, TWICE_115);
    TwoSquarings(115, TWICE_115, TWICE_117);
    TwoSquarings(117, TWICE_117, TWICE_119);
    TwoSquarings(119, TWICE_119, TWICE_121);
    TwoSquarings(121, TWICE_121, TWICE_123);
    TwoSquarings(123, TWICE_123, TWICE_125);
    TwoSquarings(125, TWICE_125, TWICE_127);
    TwoSquarings(127, TWICE_127, TWICE_129);
  }

  lemma {:induction false} ThirdQuarter()
    requires Squared(129, TWICE_129)
    ensures Squared(193, TWICE_193)
  {
    hide Squared;
    TwoSquarings(129, TWICE_129, TWICE_131);
    TwoSquarings(131, TWICE_131, TWICE_133);
    TwoSquarings(133, TWICE_133, TWICE_135);
    TwoSquarings(135, TWICE_135, TWICE_137);
    TwoSquarings(137, TWICE_137, TWICE_139);
    TwoSquarings(139, TWICE_139, TWICE_141);
    TwoSquarings(141, TWICE_141, TWICE_143);
    TwoSquarings(143, TWICE_143, TWICE_145);
    TwoSquarings(145, TWICE_145, TWICE_147);
    TwoSquarings(147, TWICE_147, TWICE_149);
    TwoSquarings(149, TWICE_149, TWICE_151);
    TwoSquarings(151, TWICE_151, TWICE_153);
    TwoSquarings(153, TWICE_153, TWICE_155);
    TwoSquarings(155, TWICE_155, TWICE_157);
    TwoSquarings(157, TWICE_157, TWICE_159);
    TwoSquarings(159, TWICE_159, TWICE_161);
    TwoSquarings(161, TWICE_161, TWICE_163);
    TwoSquarings(163, TWICE_163, TWICE_165);
    TwoSquarings(165, TWICE_165, TWICE_167);
    TwoSquarings(167, TWICE_167, TWICE_169);
    TwoSquarings(169, TWICE_169, TWICE_171);
    TwoSquarings(171, TWICE_171, TWICE_173);
    TwoSquarings(173, TWICE_173, TWICE_175);
    TwoSquarings(175, TWICE_175, TWICE_177);
    TwoSquarings(177, TWICE_177, TWICE_179);
    TwoSquarings(179, TWICE_179, TWICE_181);
    TwoSquarings(181, TWICE_181, TWICE_183);
    TwoSquarings(183, TWICE_183, TWICE_185);
    TwoSquarings(185, TWICE_185, TWICE_187);
    TwoSquarings(187, TWICE_187, TWICE_189);
    TwoSquarings(189, TWICE_189, TWICE_191);
    TwoSquarings(191, TWICE_191, TWICE_193);
  }

  lemma {:induction false} LastQuarter()
    requires Squared(193, TWICE_193)
    ensures Squared(253, TWICE_253)
  {
    hide Squared;
    TwoSquarings(193, TWICE_193, TWICE_195);
    TwoSquarings(195, TWICE_195, TWICE_197);
    TwoSquarings(197, TWICE_197, TWICE_199);
    TwoSquarings(199, TWICE_199, TWICE_201);
    TwoSquarings(201, TWICE_201, TWICE_203);
    TwoSquarings(203, TWICE_203, TWICE_205);
    TwoSquarings(205, TWICE_205, TWICE_207);
    TwoSquarings(207, TWICE_207, TWICE_209);
    TwoSquarings(209, TWICE_209, TWICE_211);
    TwoSquarings(211, TWICE_211, TWICE_213);
    TwoSquarings(213, TWICE_213, TWICE_215);
    TwoSquarings(215, TWICE_215, TWICE_217);
    TwoSquarings(217, TWICE_217, TWICE_219);
    TwoSquarings(219, TWICE_219, TWICE_221);
    TwoSquarings(221, TWICE_221, TWICE_223);
    TwoSquarings(223, TWICE_223, TWICE_225);
    TwoSquarings(225, TWICE_225, TWICE_227);
    TwoSquarings(227, TWICE_227, TWICE_229);
    TwoSquarings(229, TWICE_229, TWICE_231);
    TwoSquarings(231, TWICE_231, TWICE_233);
    TwoSquarings(233, TWICE_233, TWICE_235);
    TwoSquarings(235, TWICE_235, TWICE_237);
    TwoSquarings(237, TWICE_237, TWICE_239);
    TwoSquarings(239, TWICE_239, TWICE_241);
    TwoSquarings(241, TWICE_241, TWICE_243);
    TwoSquarings(243, TWICE_243, TWICE_245);
    TwoSquarings(245, TWICE_245, TWICE_247);
    TwoSquarings(247, TWICE_247, TWICE_249);
    TwoSquarings(249, TWICE_249, TWICE_251);
    TwoSquarings(251, TWICE_251, TWICE_253);
  }

  lemma {:induction false} Joined(j: nat, k: nat, a: int, b: int)
    requires Pow(2, j) == a && Pow(2, k) == b
    ensures Pow(2, j + k) == a * b
  {
    PowAdd(2, j, k);
  }

  /** The squarings reach 2 to the exponent the module uses, times 2 to the fifth. */
  lemma {:induction false} ExponentReached()
    ensures Pow(2, 253) == (P - 1) / 4 + 5
  {
    assert Pow(2, 5) == 32 && Pow(2, 8) == 256;
    hide Pow;
    Joined(8, 8, 0x100, 0x100);
    Joined(16, 16, 0x1_0000, 0x1_0000);
    Joined(32, 32, 0x1_0000_0000, 0x1_0000_0000);
    Joined(64, 64, 0x1_0000_0000_0000_0000, 0x1_0000_0000_0000_0000);
    var wide := 0x1_0000_0000_0000_0000_0000_0000_0000_0000;
    Joined(128, 64, wide, 0x1_0000_0000_0000_0000);
    Joined(192, 32, wide * 0x1_0000_0000_0000_0000, 0x1_0000_0000);
    Joined(224, 16, wide * 0x1_0000_0000_0000_0000_0000_0000, 0x1_0000);
    Joined(240, 8, wide * 0x1_0000_0000_0000_0000_0000_0000_0000, 0x100);
    Joined(248, 5, wide * 0x1_0000_0000_0000_0000_0000_0000_0000_00, 32);
  }

  lemma {:induction false} Start()
    ensures Squared(1, TWICE_1)
  {
    assert Pow(2, 1) == 2 && Pow(2, 2) == 4;
  }

  /** The written-out root times 32 is where the squarings end. */
  lemma {:induction false} RootReached()
    ensures Same(P, SQRT_M1 * 32, TWICE_253)
  {
  }

  lemma {:induction false} PowerReached(e: nat)
    requires Squared(253, TWICE_253) && Pow(2, 253) == e + 5
    ensures Same(P, Pow(2, e) * 32, TWICE_253)
  {
    assert Pow(2, 5) == 32;
    PowAdd(2, e, 5);
  }

  /** Below P, two numbers with the same product by 32 are equal. */
  lemma {:induction false} RootIs(w: int, power: int, product: int)
    requires Prime(P) && 0 <= w < P && Same(P, w, power) && Same(P, power * 32, product)
    requires Same(P, SQRT_M1 * 32, product)
    ensures w == SQRT_M1
  {
    hide Prime, Same;
    SameRefl(P, 32);
    SameMul(P, w, power, 32, 32);
    SameTrans(P, w * 32, power * 32, product);
    SameSym(P, SQRT_M1 * 32, product);
    SameTrans(P, w * 32, product, SQRT_M1 * 32);
    SameCancel(P, w, SQRT_M1, 32);
    SameCanonical(P, w, SQRT_M1);
  }

  /** The power of 2 that the module computes is the written-out root of -1. */
  lemma {:induction false} RootIsThePower()
    requires Prime(P)
    ensures PowMod(2, (P - 1) / 4, P) == SQRT_M1
  {
    hide Same, Pow, Squared;
    Start();
    FirstQuarter();
    SecondQuarter();
    ThirdQuarter();
    LastQuarter();
    ExponentReached();
    RootReached();
    PowerReached((P - 1) / 4);
    SameMod(P, Pow(2, (P - 1) / 4));
    RootIs(PowMod(2, (P - 1) / 4, P), Pow(2, (P - 1) / 4), TWICE_253);
  }
}
