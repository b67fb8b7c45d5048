/**
 The constants of RFC 1321 against the sine itself: section 3.4 takes the integer part of 4294967296 times
 the absolute value of the sine of i radians, which is computed here by turning a vector radian by radian.
 */
module Md5Sine {
  import opened Md5Block

  /** Fixed point numbers of sixteen decimals. */
  const ONE: int := 1_0000_0000_0000_0000
  const RANGE: int := 0x1_0000_0000

  /** Sine and cosine of one radian by their series, to where the terms are less than one. */
  const SIN: int := ONE - ONE / 6 + ONE / 120 - ONE / 5040 + ONE / 36_2880 - ONE / 3991_6800 + ONE / 62_2702_0800 - ONE / 1_3076_7436_8000 + ONE / 355_6874_2809_6000
  const COS: int := ONE - ONE / 2 + ONE / 24 - ONE / 720 + ONE / 4_0320 - ONE / 362_8800 + ONE / 4_7900_1600 - ONE / 871_7829_1200 + ONE / 20_9227_8988_8000 - ONE / 6402_3737_0572_8000

  /** Sine and cosine of n radians, by the addition theorems. */
  function Turned(n: nat): (v: (int, int))
  {
    if n == 0 then (0, ONE)
    else
      var v := Turned(n - 1);
      ((v.0 * COS + v.1 * SIN) / ONE, (v.1 * COS - v.0 * SIN) / ONE)
  }

  function Abs(x: int): (r: nat)
  {
    if x < 0 then -x else x
  }

  /** The constant of step i, counted from 0. */
  function SineOf(i: nat): (t: nat)
  {
    RANGE * Abs(Turned(i + 1).0) / ONE
  }

  lemma SinIs()
    ensures SIN == 8414_7098_4807_8966
  {
  }

  lemma CosIs()
    ensures COS == 5403_0230_5868_1396
  {
  }

  /** The quotient by ONE is told by its remainder. */
  lemma Quotient(x: int, q: int)
    requires 0 <= x - q * 1_0000_0000_0000_0000 < 1_0000_0000_0000_0000
    ensures x / ONE == q
  {
    var r := x - q * ONE;
    assert x == q * ONE + r;
  }

  /** Functions that are those two. */
  ghost predicate Are(turned: nat -> (int, int), constant: nat -> nat)
  {
    && (forall n: nat {:trigger Turned(n)} :: turned(n) == Turned(n))
    && (forall n: nat {:trigger SineOf(n)} :: constant(n) == SineOf(n))
  }

  /** One radian on. */
  lemma OneTurn(turned: nat -> (int, int), constant: nat -> nat, i: nat, s: int, c: int, s1: int, c1: int, t: nat)
    requires Are(turned, constant) && turned(i) == (s, c)
    requires 0 <= s * 5403_0230_5868_1396 + c * 8414_7098_4807_8966 - s1 * 1_0000_0000_0000_0000 < 1_0000_0000_0000_0000
    requires 0 <= c * 5403_0230_5868_1396 - s * 8414_7098_4807_8966 - c1 * 1_0000_0000_0000_0000 < 1_0000_0000_0000_0000
    requires 0 <= 0x1_0000_0000 * Abs(s1) - t * 1_0000_0000_0000_0000 < 1_0000_0000_0000_0000
    ensures turned(i + 1) == (s1, c1) && constant(i) == t
  {
    assert Turned(i) == (s, c) && Turned(i + 1) == turned(i + 1) && SineOf(i) == constant(i);
    SinIs();
    CosIs();
    Quotient(s * COS + c * SIN, s1);
    Quotient(c * COS - s * SIN, c1);
    Quotient(RANGE * Abs(s1), t);
  }

  lemma Sines0(turned: nat -> (int, int), constant: nat -> nat, i: nat)
    requires Are(turned, constant) && i == 0 && turned(i) == (0, 1_0000_0000_0000_0000)
    ensures turned(i + 8) == (9893_5824_6623_3816, -1455_0003_3808_6147)
    ensures forall k :: i <= k < i + 8 ==> constant(k) == Sine(k)
  {
    OneTurn(turned, constant, i, 0, 1_0000_0000_0000_0000, 8414_7098_4807_8966, 5403_0230_5868_1396, 0xd76aa478);
    OneTurn(turned, constant, i + 1, 8414_7098_4807_8966, 5403_0230_5868_1396, 9092_9742_6825_6815, -4161_4683_6547_1427, 0xe8c7b756);
    OneTurn(turned, constant, i + 2, 9092_9742_6825_6815, -4161_4683_6547_1427, 1411_2000_8059_8667, -9899_9249_6600_4455, 0x242070db);
    OneTurn(turned, constant, i + 3, 1411_2000_8059_8667, -9899_9249_6600_4455, -7568_0249_5307_9287, -6536_4362_0863_6114, 0xc1bdceee);
    OneTurn(turned, constant, i + 4, -7568_0249_5307_9287, -6536_4362_0863_6114, -9589_2427_4663_1383, 2836_6218_5463_2270, 0xf57c0faf);
    OneTurn(turned, constant, i + 5, -9589_2427_4663_1383, 2836_6218_5463_2270, -2794_1549_8198_9251, 9601_7028_6650_3663, 0x4787c62a);
    OneTurn(turned, constant, i + 6, -2794_1549_8198_9251, 9601_7028_6650_3663, 6569_8659_8718_7898, 7539_0225_4343_3040, 0xa8304613);
    OneTurn(turned, constant, i + 7, 6569_8659_8718_7898, 7539_0225_4343_3040, 9893_5824_6623_3816, -1455_0003_3808_6147, 0xfd469501);
  }

  lemma Sines8(turned: nat -> (int, int), constant: nat -> nat, i: nat)
    requires Are(turned, constant) && i == 8 && turned(i) == (9893_5824_6623_3816, -1455_0003_3808_6147)
    ensures turned(i + 8) == (-2879_0331_6665_0678, -9576_5948_0323_3841)
    ensures forall k :: i <= k < i + 8 ==> constant(k) == Sine(k)
  {
    OneTurn(turned, constant, i, 9893_5824_6623_3816, -1455_0003_3808_6147, 4121_1848_5241_7553, -9111_3026_1884_6776, 0x698098d8);
    OneTurn(turned, constant, i + 1, 4121_1848_5241_7553, -9111_3026_1884_6776, -5440_2111_0889_3712, -8390_7152_9076_4517, 0x8b44f7af);
    OneTurn(turned, constant, i + 2, -5440_2111_0889_3712, -8390_7152_9076_4517, -9999_9020_6550_7036, 44_2569_7988_0525, 0xffff5bb1);
    OneTurn(turned, constant, i + 3, -9999_9020_6550_7036, 44_2569_7988_0525, -5365_7291_8000_4335, 8438_5395_8732_4932, 0x895cd7be);
    OneTurn(turned, constant, i + 4, -5365_7291_8000_4335, 8438_5395_8732_4932, 4201_6703_6826_6427, 9074_4678_1450_1955, 0x6b901122);
    OneTurn(turned, constant, i + 5, 4201_6703_6826_6427, 9074_4678_1450_1955, 9906_0735_5694_8707, 1367_3721_8207_8315, 0xfd987193);
    OneTurn(turned, constant, i + 6, 9906_0735_5694_8707, 1367_3721_8207_8315, 6502_8784_0157_1152, -7596_8791_2858_8229, 0xa679438e);
    OneTurn(turned, constant, i + 7, 6502_8784_0157_1152, -7596_8791_2858_8229, -2879_0331_6665_0678, -9576_5948_0323_3841, 0x49b40821);
  }

  lemma Sines16(turned: nat -> (int, int), constant: nat -> nat, i: nat)
    requires Are(turned, constant) && i == 16 && turned(i) == (-2879_0331_6665_0678, -9576_5948_0323_3841)
    ensures turned(i + 8) == (-9055_7836_2006_6226, 4241_7900_7337_0007)
    ensures forall k :: i <= k < i + 8 ==> constant(k) == Sine(k)
  {
    OneTurn(turned, constant, i, -2879_0331_6665_0678, -9576_5948_0323_3841, -9613_9749_1879_5579, -2751_6333_8051_5944, 0xf61e2562);
    OneTurn(turned, constant, i + 1, -9613_9749_1879_5579, -2751_6333_8051_5944, -7509_8724_6771_6745, 6603_1670_8244_0825, 0xc040b340);
    OneTurn(turned, constant, i + 2, -7509_8724_6771_6745, 6603_1670_8244_0825, 1498_7720_9662_9553, 9887_0461_8186_6691, 0x265e5a51);
    OneTurn(turned, constant, i + 3, 1498_7720_9662_9553, 9887_0461_8186_6691, 9129_4525_0727_6292, 4080_8206_1813_3892, 0xe9b6c7aa);
    OneTurn(turned, constant, i + 4, 9129_4525_0727_6292, 4080_8206_1813_3892, 8366_5563_8536_0544, -5477_2926_0224_2714, 0xd62f105d);
    OneTurn(turned, constant, i + 5, 8366_5563_8536_0544, -5477_2926_0224_2714, -88_5130_9290_4075, -9999_6082_6394_6374, 0x02441453);
    OneTurn(turned, constant, i + 6, -88_5130_9290_4075, -9999_6082_6394_6374, -8462_2040_4175_1730, -5328_3302_0333_3946, 0xd8a1e681);
    OneTurn(turned, constant, i + 7, -8462_2040_4175_1730, -5328_3302_0333_3946, -9055_7836_2006_6226, 4241_7900_7337_0007, 0xe7d3fbc8);
  }

  lemma Sines24(turned: nat -> (int, int), constant: nat -> nat, i: nat)
    requires Are(turned, constant) && i == 24 && turned(i) == (-9055_7836_2006_6226, 4241_7900_7337_0007)
    ensures turned(i + 8) == (5514_2668_1241_6951, 8342_2336_0506_5079)
    ensures forall k :: i <= k < i + 8 ==> constant(k) == Sine(k)
  {
    OneTurn(turned, constant, i, -9055_7836_2006_6226, 4241_7900_7337_0007, -1323_5175_0097_7691, 9912_0281_1863_4745, 0x21e1cde6);
    OneTurn(turned, constant, i + 1, -1323_5175_0097_7691, 9912_0281_1863_4745, 7625_5845_0479_6057, 6469_1932_2328_6374, 0xc33707d6);
    OneTurn(turned, constant, i + 2, 7625_5845_0479_6057, 6469_1932_2328_6374, 9563_7592_8404_5021, -2921_3880_8733_8405, 0xf4d50d87);
    OneTurn(turned, constant, i + 3, 9563_7592_8404_5021, -2921_3880_8733_8405, 2709_0578_8307_8647, -9626_0586_6313_5683, 0x455a14ed);
    OneTurn(turned, constant, i + 4, 2709_0578_8307_8647, -9626_0586_6313_5683, -6636_3388_4212_9714, -7480_5752_9688_9976, 0xa9e3e905);
    OneTurn(turned, constant, i + 5, -6636_3388_4212_9714, -7480_5752_9688_9976, -9880_3162_4092_8616, 1542_5144_9887_5889, 0xfcefa3f8);
    OneTurn(turned, constant, i + 6, -9880_3162_4092_8616, 1542_5144_9887_5889, -4040_3764_5323_0607, 9147_4235_7804_5338, 0x676f02d9);
    OneTurn(turned, constant, i + 7, -4040_3764_5323_0607, 9147_4235_7804_5338, 5514_2668_1241_6951, 8342_2336_0506_5079, 0x8d2a4c8a);
  }

  lemma Sines32(turned: nat -> (int, int), constant: nat -> nat, i: nat)
    requires Are(turned, constant) && i == 32 && turned(i) == (5514_2668_1241_6951, 8342_2336_0506_5079)
    ensures turned(i + 8) == (7451_1316_0479_3449, -6669_3806_1652_2671)
    ensures forall k :: i <= k < i + 8 ==> constant(k) == Sine(k)
  {
    OneTurn(turned, constant, i, 5514_2668_1241_6951, 8342_2336_0506_5079, 9999_1186_0107_2676, -132_7674_7223_0648, 0xfffa3942);
    OneTurn(turned, constant, i + 1, 9999_1186_0107_2676, -132_7674_7223_0648, 5290_8268_6120_0194, -8485_7027_4784_6086, 0x8771f681);
    OneTurn(turned, constant, i + 2, 5290_8268_6120_0194, -8485_7027_4784_6086, -4281_8266_9496_1565, -9036_9220_5091_5049, 0x6d9d6122);
    OneTurn(turned, constant, i + 3, -4281_8266_9496_1565, -9036_9220_5091_5049, -9917_7885_3443_1172, -1279_6368_9627_3990, 0xfde5380c);
    OneTurn(turned, constant, i + 4, -9917_7885_3443_1172, -1279_6368_9627_3990, -6435_3813_3356_9954, 7654_1405_1945_3477, 0xa4beea44);
    OneTurn(turned, constant, i + 5, -6435_3813_3356_9954, 7654_1405_1945_3477, 2963_6857_8709_3913, 9550_7364_4047_2937, 0x4bdecfa9);
    OneTurn(turned, constant, i + 6, 2963_6857_8709_3913, 9550_7364_4047_2937, 9637_9538_6284_0900, 2666_4293_2359_9314, 0xf6bb4b60);
    OneTurn(turned, constant, i + 7, 9637_9538_6284_0900, 2666_4293_2359_9314, 7451_1316_0479_3449, -6669_3806_1652_2671, 0xbebfbc70);
  }

  lemma Sines40(turned: nat -> (int, int), constant: nat -> nat, i: nat)
    requires Are(turned, constant) && i == 40 && turned(i) == (7451_1316_0479_3449, -6669_3806_1652_2671)
    ensures turned(i + 8) == (-7682_5466_1323_6723, -6401_4433_9469_1944)
    ensures forall k :: i <= k < i + 8 ==> constant(k) == Sine(k)
  {
    OneTurn(turned, constant, i, 7451_1316_0479_3449, -6669_3806_1652_2671, -1586_2266_8804_7157, -9873_3927_7523_8261, 0x289b7ec6);
    OneTurn(turned, constant, i + 1, -1586_2266_8804_7157, -9873_3927_7523_8261, -9165_2154_7915_6372, -3999_8531_4988_3454, 0xeaa127fa);
    OneTurn(turned, constant, i + 2, -9165_2154_7915_6372, -3999_8531_4988_3454, -8317_7474_2628_5952, 5551_1330_1520_6318, 0xd4ef3085);
    OneTurn(turned, constant, i + 3, -8317_7474_2628_5952, 5551_1330_1520_6318, 177_0192_5105_4205, 9998_4330_8647_6919, 0x04881d05);
    OneTurn(turned, constant, i + 4, 177_0192_5105_4205, 9998_4330_8647_6919, 8509_0352_4534_1228, 5253_2198_8817_7241, 0xd9d4d039);
    OneTurn(turned, constant, i + 5, 8509_0352_4534_1228, 5253_2198_8817_7241, 9017_8834_7648_8067, -4321_7794_4884_7852, 0xe6db99e5);
    OneTurn(turned, constant, i + 6, 9017_8834_7648_8067, -4321_7794_4884_7852, 1235_7312_2745_2167, -9923_3546_9150_9304, 0x1fa27cf8);
    OneTurn(turned, constant, i + 7, 1235_7312_2745_2167, -9923_3546_9150_9304, -7682_5466_1323_6723, -6401_4433_9469_1944, 0xc4ac5665);
  }

  lemma Sines48(turned: nat -> (int, int), constant: nat -> nat, i: nat)
    requires Are(turned, constant) && i == 48 && turned(i) == (-7682_5466_1323_6723, -6401_4433_9469_1944)
    ensures turned(i + 8) == (-5215_5100_2086_9049, 8532_2010_7722_5895)
    ensures forall k :: i <= k < i + 8 ==> constant(k) == Sine(k)
  {
    OneTurn(turned, constant, i, -7682_5466_1323_6723, -6401_4433_9469_1944, -9537_5265_2759_4703, 3005_9254_3743_6447, 0xf4292244);
    OneTurn(turned, constant, i + 1, -9537_5265_2759_4703, 3005_9254_3743_6447, -2623_7485_3703_9215, 9649_6602_8492_1161, 0x432aff97);
    OneTurn(turned, constant, i + 2, -2623_7485_3703_9215, 9649_6602_8492_1161, 6702_2917_5843_3811, 7421_5419_6813_7778, 0xab9423a7);
    OneTurn(turned, constant, i + 3, 6702_2917_5843_3811, 7421_5419_6813_7778, 9866_2759_2040_4847, -1629_9078_0795_7136, 0xfc93a039);
    OneTurn(turned, constant, i + 4, 9866_2759_2040_4847, -1629_9078_0795_7136, 3959_2515_0181_8268, -9182_8278_6212_1229, 0x655b59c3);
    OneTurn(turned, constant, i + 5, 3959_2515_0181_8268, -9182_8278_6212_1229, -5587_8904_8851_6238, -8293_0983_2863_1461, 0x8f0ccc92);
    OneTurn(turned, constant, i + 6, -5587_8904_8851_6238, -8293_0983_2863_1461, -9997_5517_3358_6206, 221_2675_6261_9644, 0xffeff47d);
    OneTurn(turned, constant, i + 7, -9997_5517_3358_6206, 221_2675_6261_9644, -5215_5100_2086_9049, 8532_2010_7722_5895, 0x85845dd1);
  }

  lemma Sines56(turned: nat -> (int, int), constant: nat -> nat, i: nat)
    requires Are(turned, constant) && i == 56 && turned(i) == (-5215_5100_2086_9049, 8532_2010_7722_5895)
    ensures turned(i + 8) == (9200_2603_8196_7954, 3918_5723_0429_5412)
    ensures forall k :: i <= k < i + 8 ==> constant(k) == Sine(k)
  {
    OneTurn(turned, constant, i, -5215_5100_2086_9049, 8532_2010_7722_5895, 4361_6475_5247_8334, 8998_6682_6969_1907, 0x6fa87e4f);
    OneTurn(turned, constant, i + 1, 4361_6475_5247_8334, 8998_6682_6969_1907, 9928_7264_8084_5391, 1191_8013_5448_8103, 0xfe2ce6e0);
    OneTurn(turned, constant, i + 2, 9928_7264_8084_5391, 1191_8013_5448_8103, 6367_3800_7139_1312, -7710_8022_2975_8519, 0xa3014314);
    OneTurn(turned, constant, i + 3, 6367_3800_7139_1312, -7710_8022_2975_8519, -3048_1062_1102_2261, -9524_1298_0415_1543, 0x4e0811a1);
    OneTurn(turned, constant, i + 4, -3048_1062_1102_2261, -9524_1298_0415_1543, -9661_1777_0008_3964, -2581_0163_5938_2584, 0xf7537e82);
    OneTurn(turned, constant, i + 5, -9661_1777_0008_3964, -2581_0163_5938_2584, -7391_8069_6649_2171, 6735_0716_2323_5941, 0xbd3af235);
    OneTurn(turned, constant, i + 6, -7391_8069_6649_2171, 6735_0716_2323_5941, 1673_5570_0302_8167, 9858_9658_1582_5490, 0x2ad7d2bb);
    OneTurn(turned, constant, i + 7, 1673_5570_0302_8167, 9858_9658_1582_5490, 9200_2603_8196_7954, 3918_5723_0429_5412, 0xeb86d391);
  }

  /** Every constant is the integer part of 4294967296 times the sine, without its sign. */
  lemma ConstantsAreSines(i: nat)
    requires i < 64
    ensures Sine(i) == SineOf(i)
  {
    var turned, constant := (n: nat) => Turned(n), (n: nat) => SineOf(n);
    AllSines(turned, constant, 0);
    assert constant(i) == SineOf(i);
  }

  lemma AllSines(turned: nat -> (int, int), constant: nat -> nat, n: nat)
    requires Are(turned, constant) && n == 0
    ensures forall k :: 0 <= k < 64 ==> constant(k) == Sine(k)
  {
    assert Turned(n) == (0, ONE) && turned(n) == Turned(n);
    Sines0(turned, constant, n);
    Sines8(turned, constant, n + 8);
    Sines16(turned, constant, n + 16);
    Sines24(turned, constant, n + 24);
    Sines32(turned, constant, n + 32);
    Sines40(turned, constant, n + 40);
    Sines48(turned, constant, n + 48);
    Sines56(turned, constant, n + 56);
  }
}
