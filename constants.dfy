/** The province allow-list `TinhTP` (src/services/constants.py). The seventh
    value, "Ðồng Nai", begins with U+00D0 (Icelandic eth) while "Đồng Tháp"
    and "Đà Lạt" begin with U+0110 (D with stroke), exactly as in the source. */
module Constants {

  const TinhTP: seq<string> := [
    "An Giang",
    "Bạc Liêu",
    "Bình Dương",
    "Bình Phước",
    "Cà Mau",
    "Cần Thơ",
    "Ðồng Nai",
    "Đồng Tháp",
    "Đà Lạt",
    "Hậu Giang",
    "TP. Hồ Chí Minh",
    "Kiên Giang",
    "Long An",
    "Tiền Giang",
    "Trà Vinh",
    "Vĩnh Long",
    "Vũng Tàu"
  ]

  /** `{e.value for e in TinhTP}`. */
  predicate IsProvince(s: string) {
    s in TinhTP
  }

  lemma ProvinceFacts()
    ensures |TinhTP| == 17
    ensures TinhTP[6][0] == '\U{00D0}' && TinhTP[7][0] == '\U{0110}'
    ensures TinhTP[6] != "Đồng Nai"
  {
  }
}

/** The tables of the transcript (học bạ) scorer (src/services/l3/spk/constants.py). */
module L3Tables {
  /** `AWARD_QG_POINTS`: national-award level to bonus points. */
  const AwardQgPoints: map<int, real> := map[
    1 := 1.2,
    2 := 1.2,
    3 := 1.2,
    4 := 1.0
  ]

  /** `AWARD_ENGLISH_POINTS`: CEFR level to bonus points. */
  const AwardEnglishPoints: map<string, real> := map[
    "A1" := 0.0,
    "A2" := 0.0,
    "B1" := 0.5,
    "B2" := 0.8,
    "C1" := 1.0,
    "C2" := 1.0
  ]

  /** `SUBJECT_MAP`: subject display name to `Grade` field name. */
  const SubjectMap: map<string, string> := map[
    "Toán" := "toan",
    "Lý" := "ly",
    "Hóa" := "hoa",
    "Văn" := "van",
    "Anh" := "anh",
    "Sinh" := "sinh",
    "Sử" := "su",
    "Địa" := "dia",
    "Tin" := "tin",
    "GDKT&PL" := "gdkt_pl",
    "Vẽ TT" := "ve_tt",
    "Vẽ DT" := "ve_dt"
  ]
}
