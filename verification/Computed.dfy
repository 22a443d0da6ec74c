/** Ascon-p computed on the constant states that the known answers and the
    departures of the OpenSSL port go through. */
module Computed {
  import opened AsconVector

  const KN_IN :=
    Vec(0x00001000808C0001, 0x0706050403020100, 0x0F0E0D0C0B0A0908,
        0x1716151413121110, 0x1F1E1D1C1B1A1918)

  const KN_OUT :=
    Vec(0xCDE34900CDFCE2C8, 0x948CBA141A58C1CB, 0x1FEC9B5DAE69B43A,
        0x620599FCD928DBAC, 0x3D3290A90ED3B02F)

  lemma InitRounds()
    ensures Rounds12(KN_IN) == KN_OUT
  {
    var s3 := Step(Step(Step(KN_IN, 0xF0), 0xE1), 0xD2);
    var s6 := Step(Step(Step(s3, 0xC3), 0xB4), 0xA5);
    var s9 := Step(Step(Step(s6, 0x96), 0x87), 0x78);
    assert Step(Step(Step(s9, 0x69), 0x5A), 0x4B) == KN_OUT;
    hide Step;
  }

  const AD1_IN :=
    Vec(0xEAC56C24EEDEC3E8, 0xBBA297383172E8E3, 0x1FEC9B5DAE69B43A,
        0x65039CF8DA2ADAAC, 0x323C9DA505D9B927)

  const AD1_OUT :=
    Vec(0xA6C1329B343FDD49, 0x3E867C0F56EC3784, 0xE4DDD82A78BC7A51,
        0xBCCC9701E554E0D6, 0x2A79FC80064C2FB4)

  lemma FirstAdRounds()
    ensures Rounds8(AD1_IN) == AD1_OUT
  {
    var s2 := Step(Step(AD1_IN, 0xB4), 0xA5);
    var s4 := Step(Step(s2, 0x96), 0x87);
    var s6 := Step(Step(s4, 0x78), 0x69);
    assert Step(Step(s6, 0x5A), 0x4B) == AD1_OUT;
    hide Step;
  }

  const AD2_IN :=
    Vec(0x91F707AF070DEC79, 0x3E867C0F56EC3785, 0xE4DDD82A78BC7A51,
        0xBCCC9701E554E0D6, 0x2A79FC80064C2FB4)

  const AD2_OUT :=
    Vec(0x97FFAC3BCABD7CFE, 0x229045954833EFA2, 0xAF5E2E9EE6364632,
        0xD50A2D231D9F39EF, 0x7E6FB89FA3FBA1E0)

  lemma SecondAdRounds()
    ensures Rounds8(AD2_IN) == AD2_OUT
  {
    var s2 := Step(Step(AD2_IN, 0xB4), 0xA5);
    var s4 := Step(Step(s2, 0x96), 0x87);
    var s6 := Step(Step(s4, 0x78), 0x69);
    assert Step(Step(s6, 0x5A), 0x4B) == AD2_OUT;
    hide Step;
  }

  const DATA1_IN :=
    Vec(0xD0B9E97F89FF3DBE, 0x6DDE08D90379A6EA, 0xAF5E2E9EE6364632,
        0xD50A2D231D9F39EF, 0xFE6FB89FA3FBA1E0)

  const DATA1_OUT :=
    Vec(0x65F5E7CD982D4ACA, 0xC98FC76CCCD89841, 0x25881461FB33CE21,
        0x7BAD9798B2AF2E05, 0x2A148BDAE62FDE8D)

  lemma FirstDataRounds()
    ensures Rounds8(DATA1_IN) == DATA1_OUT
  {
    var s2 := Step(Step(DATA1_IN, 0xB4), 0xA5);
    var s4 := Step(Step(s2, 0x96), 0x87);
    var s6 := Step(Step(s4, 0x78), 0x69);
    assert Step(Step(s6, 0x5A), 0x4B) == DATA1_OUT;
    hide Step;
  }

  const DATA2_IN :=
    Vec(0x32A3B299CB7F1B9A, 0x96D19A309782C119, 0x25881461FB33CE21,
        0x7BAD9798B2AF2E05, 0x2A148BDAE62FDE8D)

  const DATA2_OUT :=
    Vec(0xD536D562518B80C9, 0xDF91A58ADC9D620A, 0x9F8178FD0DCF5DE6,
        0x7F03FE0C9C3A856A, 0x40571A2D513715C0)

  lemma SecondDataRounds()
    ensures Rounds8(DATA2_IN) == DATA2_OUT
  {
    var s2 := Step(Step(DATA2_IN, 0xB4), 0xA5);
    var s4 := Step(Step(s2, 0x96), 0x87);
    var s6 := Step(Step(s4, 0x78), 0x69);
    assert Step(Step(s6, 0x5A), 0x4B) == DATA2_OUT;
    hide Step;
  }

  const TAG_IN :=
    Vec(0xB250B00632E9E1A9, 0xDF91A58ADC9D620B, 0x98877DF90ECD5CE6,
        0x700DF30097308C62, 0x40571A2D513715C0)

  const TAG_OUT :=
    Vec(0x810AEA5B550688B9, 0xEE9EC9CC19EA2B11, 0x213B0BB0425BFB0A,
        0xE5DE98F0D37CEB99, 0xCC020B9577ED913C)

  lemma TagRounds()
    ensures Rounds12(TAG_IN) == TAG_OUT
  {
    var s3 := Step(Step(Step(TAG_IN, 0xF0), 0xE1), 0xD2);
    var s6 := Step(Step(Step(s3, 0xC3), 0xB4), 0xA5);
    var s9 := Step(Step(Step(s6, 0x96), 0x87), 0x78);
    assert Step(Step(Step(s9, 0x69), 0x5A), 0x4B) == TAG_OUT;
    hide Step;
  }

  const KK_IN :=
    Vec(0x00001000808C0001, 0x0706050403020100, 0x0F0E0D0C0B0A0908,
        0x0706050403020100, 0x0F0E0D0C0B0A0908)

  const KK_OUT :=
    Vec(0xE94CA1D68AD071E7, 0xEC7A5FC285AED974, 0xAFE01D6BF4BCB26C,
        0x9510F88571877F38, 0x77641B9DB2BB1F0F)

  lemma RepeatedInitRounds()
    ensures Rounds12(KK_IN) == KK_OUT
  {
    var s3 := Step(Step(Step(KK_IN, 0xF0), 0xE1), 0xD2);
    var s6 := Step(Step(Step(s3, 0xC3), 0xB4), 0xA5);
    var s9 := Step(Step(Step(s6, 0x96), 0x87), 0x78);
    assert Step(Step(Step(s9, 0x69), 0x5A), 0x4B) == KK_OUT;
    hide Step;
  }

  const KK_TAG_IN :=
    Vec(0xE94CA1D68AD071E6, 0xEC7A5FC285AED974, 0xA8E6186FF7BEB36C,
        0x9D18F08D798F7730, 0xF86A1691B9B11607)

  const KK_TAG_OUT :=
    Vec(0xDF2AFF296C2A4013, 0x3E8E253584338202, 0x89E17B1C4BC2D9B1,
        0x56121B8A48D42644, 0xBF958EFC6B534DF4)

  lemma RepeatedTagRounds()
    ensures Rounds12(KK_TAG_IN) == KK_TAG_OUT
  {
    var s3 := Step(Step(Step(KK_TAG_IN, 0xF0), 0xE1), 0xD2);
    var s6 := Step(Step(Step(s3, 0xC3), 0xB4), 0xA5);
    var s9 := Step(Step(Step(s6, 0x96), 0x87), 0x78);
    assert Step(Step(Step(s9, 0x69), 0x5A), 0x4B) == KK_TAG_OUT;
    hide Step;
  }

  const HASH_IN :=
    Vec(0x0000080100CC0002, 0, 0,
        0, 0)

  const HASH_OUT :=
    Vec(0x9B1E5494E934D681, 0x4BC3A01E333751D2, 0xAE65396C6B34B81A,
        0x3C7FD4A4D56A4DB3, 0x1A5C464906C5976D)

  lemma HashInitRounds()
    ensures Rounds12(HASH_IN) == HASH_OUT
  {
    var s3 := Step(Step(Step(HASH_IN, 0xF0), 0xE1), 0xD2);
    var s6 := Step(Step(Step(s3, 0xC3), 0xB4), 0xA5);
    var s9 := Step(Step(Step(s6, 0x96), 0x87), 0x78);
    assert Step(Step(Step(s9, 0x69), 0x5A), 0x4B) == HASH_OUT;
    hide Step;
  }

  const EMPTY0 :=
    Vec(0x9B1E5494E934D680, 0x4BC3A01E333751D2, 0xAE65396C6B34B81A,
        0x3C7FD4A4D56A4DB3, 0x1A5C464906C5976D)

  const EMPTY1 :=
    Vec(0x986B2F0F85E53B0B, 0x2386F7E072D98BA5, 0x05A2F0490571DF00,
        0x1F64389B8A35DD62, 0xCC9779F2D99CE706)

  lemma EmptyRounds1()
    ensures Rounds12(EMPTY0) == EMPTY1
  {
    var s3 := Step(Step(Step(EMPTY0, 0xF0), 0xE1), 0xD2);
    var s6 := Step(Step(Step(s3, 0xC3), 0xB4), 0xA5);
    var s9 := Step(Step(Step(s6, 0x96), 0x87), 0x78);
    assert Step(Step(Step(s9, 0x69), 0x5A), 0x4B) == EMPTY1;
    hide Step;
  }

  const EMPTY2 :=
    Vec(0x649BA8DE8F9FF2CA, 0x15090FB0F1728054, 0xB5A310C4B131510F,
        0xBE0597D1A4F79FD1, 0xE513AB4700D7C83A)

  lemma EmptyRounds2()
    ensures Rounds12(EMPTY1) == EMPTY2
  {
    var s3 := Step(Step(Step(EMPTY1, 0xF0), 0xE1), 0xD2);
    var s6 := Step(Step(Step(s3, 0xC3), 0xB4), 0xA5);
    var s9 := Step(Step(Step(s6, 0x96), 0x87), 0x78);
    assert Step(Step(Step(s9, 0x69), 0x5A), 0x4B) == EMPTY2;
    hide Step;
  }

  const EMPTY3 :=
    Vec(0x838F9B24AA70FAA1, 0x8FD4ED1E6A15DB78, 0xFEB945EAA85D8106,
        0x2EC746887FCF6B9C, 0xCF02850B0B7F48B7)

  lemma EmptyRounds3()
    ensures Rounds12(EMPTY2) == EMPTY3
  {
    var s3 := Step(Step(Step(EMPTY2, 0xF0), 0xE1), 0xD2);
    var s6 := Step(Step(Step(s3, 0xC3), 0xB4), 0xA5);
    var s9 := Step(Step(Step(s6, 0x96), 0x87), 0x78);
    assert Step(Step(Step(s9, 0x69), 0x5A), 0x4B) == EMPTY3;
    hide Step;
  }

  const EMPTY4 :=
    Vec(0xB2924D30AA3BD59B, 0xC169B66CE2C99032, 0xAC5DFC99943888E3,
        0x281DB0D7AB47E403, 0x1923F0443C84D557)

  lemma EmptyRounds4()
    ensures Rounds12(EMPTY3) == EMPTY4
  {
    var s3 := Step(Step(Step(EMPTY3, 0xF0), 0xE1), 0xD2);
    var s6 := Step(Step(Step(s3, 0xC3), 0xB4), 0xA5);
    var s9 := Step(Step(Step(s6, 0x96), 0x87), 0x78);
    assert Step(Step(Step(s9, 0x69), 0x5A), 0x4B) == EMPTY4;
    hide Step;
  }

  const MSG_IN :=
    Vec(0x9C185190EA36D781, 0x4BC3A01E333751D2, 0xAE65396C6B34B81A,
        0x3C7FD4A4D56A4DB3, 0x1A5C464906C5976D)

  const MSG_OUT :=
    Vec(0xFD172FD3F18FEF37, 0xBC863059EFC20E28, 0x840D3FB83DC2D268,
        0x1B2282C56DD6B8BB, 0x5FE46CE2DED6533C)

  lemma MessageRounds()
    ensures Rounds12(MSG_IN) == MSG_OUT
  {
    var s3 := Step(Step(Step(MSG_IN, 0xF0), 0xE1), 0xD2);
    var s6 := Step(Step(Step(s3, 0xC3), 0xB4), 0xA5);
    var s9 := Step(Step(Step(s6, 0x96), 0x87), 0x78);
    assert Step(Step(Step(s9, 0x69), 0x5A), 0x4B) == MSG_OUT;
    hide Step;
  }

  const MSG0 :=
    Vec(0xFD172FD3F18EE63F, 0xBC863059EFC20E28, 0x840D3FB83DC2D268,
        0x1B2282C56DD6B8BB, 0x5FE46CE2DED6533C)

  const MSG1 :=
    Vec(0x970A8AC75B5C4F89, 0x1AB2021217DBB9DE, 0xF423E8EE7E0A2BA8,
        0x203A37A381DF32DC, 0x0B4D4DB138982543)

  lemma MessageSqueeze1()
    ensures Rounds12(MSG0) == MSG1
  {
    var s3 := Step(Step(Step(MSG0, 0xF0), 0xE1), 0xD2);
    var s6 := Step(Step(Step(s3, 0xC3), 0xB4), 0xA5);
    var s9 := Step(Step(Step(s6, 0x96), 0x87), 0x78);
    assert Step(Step(Step(s9, 0x69), 0x5A), 0x4B) == MSG1;
    hide Step;
  }

  const MSG2 :=
    Vec(0x339AD02331D6C0AB, 0x605FACFDDB9CC76C, 0x097C3C6AF21A882F,
        0x988DA0B3B136CE79, 0x7E936FFA559A47D2)

  lemma MessageSqueeze2()
    ensures Rounds12(MSG1) == MSG2
  {
    var s3 := Step(Step(Step(MSG1, 0xF0), 0xE1), 0xD2);
    var s6 := Step(Step(Step(s3, 0xC3), 0xB4), 0xA5);
    var s9 := Step(Step(Step(s6, 0x96), 0x87), 0x78);
    assert Step(Step(Step(s9, 0x69), 0x5A), 0x4B) == MSG2;
    hide Step;
  }

  const MSG3 :=
    Vec(0xD1F9AD3024D9B05F, 0x4A2B2F47F131320F, 0x9B35D635F77F5B0D,
        0x2BE12EB3A170B17D, 0xB22FEF57EF7D3455)

  lemma MessageSqueeze3()
    ensures Rounds12(MSG2) == MSG3
  {
    var s3 := Step(Step(Step(MSG2, 0xF0), 0xE1), 0xD2);
    var s6 := Step(Step(Step(s3, 0xC3), 0xB4), 0xA5);
    var s9 := Step(Step(Step(s6, 0x96), 0x87), 0x78);
    assert Step(Step(Step(s9, 0x69), 0x5A), 0x4B) == MSG3;
    hide Step;
  }

  const MSG4 :=
    Vec(0x689917543864D21F, 0x874B936CB520A32C, 0x0EA128C008F0A424,
        0x518222A5826AB8B3, 0x20EE47DEFC2C71A7)

  lemma MessageSqueeze4()
    ensures Rounds12(MSG3) == MSG4
  {
    var s3 := Step(Step(Step(MSG3, 0xF0), 0xE1), 0xD2);
    var s6 := Step(Step(Step(s3, 0xC3), 0xB4), 0xA5);
    var s9 := Step(Step(Step(s6, 0x96), 0x87), 0x78);
    assert Step(Step(Step(s9, 0x69), 0x5A), 0x4B) == MSG4;
    hide Step;
  }

  const MASK_IN :=
    Vec(0x524E44494D534B5F, 0x0706050403020100, 0x0F0E0D0C0B0A0908,
        0x1716151413121110, 0x1F1E1D1C1B1A1918)

  const MASK_OUT :=
    Vec(0x03D4D00F5147A455, 0x75584A48CEC34B5B, 0x4CFEDC1CC65A9336,
        0x0A24C12DEBF6E670, 0xC50144BD4B7D92A3)

  lemma MaskRounds()
    ensures Rounds12(MASK_IN) == MASK_OUT
  {
    var s3 := Step(Step(Step(MASK_IN, 0xF0), 0xE1), 0xD2);
    var s6 := Step(Step(Step(s3, 0xC3), 0xB4), 0xA5);
    var s9 := Step(Step(Step(s6, 0x96), 0x87), 0x78);
    assert Step(Step(Step(s9, 0x69), 0x5A), 0x4B) == MASK_OUT;
    hide Step;
  }

  const ZERO_IN :=
    Vec(0x00001000808C0001, 0, 0,
        0, 0)

  const ZERO_OUT :=
    Vec(0xFE4F09788DED5708, 0x152CE52B6250D073, 0x1BA0258B92CF4474,
        0x9B49B4A322238E73, 0x9F1767D7474E5CFF)

  lemma ZeroInitRounds()
    ensures Rounds12(ZERO_IN) == ZERO_OUT
  {
    var s3 := Step(Step(Step(ZERO_IN, 0xF0), 0xE1), 0xD2);
    var s6 := Step(Step(Step(s3, 0xC3), 0xB4), 0xA5);
    var s9 := Step(Step(Step(s6, 0x96), 0x87), 0x78);
    assert Step(Step(Step(s9, 0x69), 0x5A), 0x4B) == ZERO_OUT;
    hide Step;
  }

  const ZERO_NEXT :=
    Vec(0xAEB8776CB1DF7852, 0x0AB5EEF9265206C1, 0xB4D916798DF2C87B,
        0x6AB0EE418A70920C, 0xFB1DE7EB0B295382)

  lemma ZeroNextRounds()
    ensures Rounds8(ZERO_OUT) == ZERO_NEXT
  {
    var s2 := Step(Step(ZERO_OUT, 0xB4), 0xA5);
    var s4 := Step(Step(s2, 0x96), 0x87);
    var s6 := Step(Step(s4, 0x78), 0x69);
    assert Step(Step(s6, 0x5A), 0x4B) == ZERO_NEXT;
    hide Step;
  }

  const ZERO_CLOSED :=
    Vec(0xFE4F09788DED5709, 0x152CE52B6250D073, 0x1BA0258B92CF4474,
        0x9B49B4A322238E73, 0x1F1767D7474E5CFF)

  const ZERO_TAG :=
    Vec(0x1C74797B6556F599, 0x961C4745EDC7711C, 0x926A40057D19D526,
        0x90F0FBF991DAE8F1, 0xAE1BD9CA7CE3F3CA)

  lemma ZeroTagRounds()
    ensures Rounds12(ZERO_CLOSED) == ZERO_TAG
  {
    var s3 := Step(Step(Step(ZERO_CLOSED, 0xF0), 0xE1), 0xD2);
    var s6 := Step(Step(Step(s3, 0xC3), 0xB4), 0xA5);
    var s9 := Step(Step(Step(s6, 0x96), 0x87), 0x78);
    assert Step(Step(Step(s9, 0x69), 0x5A), 0x4B) == ZERO_TAG;
    hide Step;
  }
}
