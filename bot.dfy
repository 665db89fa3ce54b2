/** The registry record object of bot.py (class InputData) and the message handler that
    drives it (echo_message). The registry lookup and the chat transport are parameters. */
module Bot {
  import opened Casing
  import opened PyStr
  import opened Formatters

  /** The five raw fields of the first registry row. */
  datatype RawRecord = RawRecord(name: string, ogrn: string, inn: string, kpp: string, address: string)

  /** InputData: the raw fields as received, and the three display strings once computed.
      `name`, `ogrn`, `inn` and `kpp` are stored as one-element tuples (the trailing commas
      of the constructor); a display field is None until its get_final_* method has set it. */
  class InputData {
    var name: seq<string>
    var ogrn: seq<string>
    var inn: seq<string>
    var kpp: seq<string>
    var address: string
    var finalName: Option<string>
    var finalNumbers: Option<string>
    var finalAddress: Option<string>

    constructor (name: string, ogrn: string, inn: string, kpp: string, address: string)
      ensures this.name == [name] && this.ogrn == [ogrn] && this.inn == [inn] && this.kpp == [kpp]
      ensures this.address == address
      ensures finalName == None && finalNumbers == None && finalAddress == None
    {
      this.name := [name];
      this.ogrn := [ogrn];
      this.inn := [inn];
      this.kpp := [kpp];
      this.address := address;
      finalName, finalNumbers, finalAddress := None, None, None;
    }

    method GetFinalName() returns (r: string)
      modifies this`finalName
      ensures r == FinalName(Join(name, ""))
      ensures finalName == Some(r)
    {
      var preName := Join(name, "");
      var nameSplit := Split(preName, "\"");
      var companyForm := Lower(nameSplit[0]);
      var nameShort := Join(nameSplit[1..], "");
      finalName := Some(companyForm + "«" + nameShort + "» ");
      r := finalName.value;
    }

    method GetFinalNumbers() returns (r: string)
      modifies this`finalNumbers
      ensures finalNumbers == Some(FinalNumbers(Join(ogrn, ""), Join(inn, ""), Join(kpp, "")))
      ensures r == finalNumbers.value
    {
      var numbers := "(ОГРН " + Join(ogrn, "") + ", " + "ИНН " + Join(inn, "") + ", "
                   + "КПП " + Join(kpp, "") + ")" + "\n" + "\n";
      assert numbers == FinalNumbers(Join(ogrn, ""), Join(inn, ""), Join(kpp, ""));
      finalNumbers := Some(numbers);
      // the method returns ''.join over the characters of the stored string
      r := Join(Chars(numbers), "");
      JoinChars(numbers);
    }

    /** An address with no ", " raises at the second index, before anything is stored. */
    method GetFinalAddress() returns (r: Result<string, AddressError>)
      modifies this`finalAddress
      ensures r == FinalAddress(address)
      ensures r.Ok? ==> finalAddress == Some(r.value)
      ensures r.Err? ==> finalAddress == old(finalAddress)
    {
      var splitString := Split(address, ", ");
      if |splitString| < 2 {
        return Err(IndexError);
      }
      var index := splitString[0];
      var preCity := Title(splitString[1]);
      var city := Replace(preCity, "Город", "город");
      var preAddress := Title(Join(splitString[2..], " "));
      var line: string;
      if Contains(preAddress, "Улица") {
        var preFinalAddress := Replace(preAddress, "Улица", " ");
        line := "Адрес: улица " + preFinalAddress + ", " + city + ", Россия, " + index;
      } else if Contains(preAddress, "Набережная") {
        var preFinalAddress := Replace(preAddress, "Набережная", "набережная");
        line := "Адрес: " + preFinalAddress + ", " + city + ", Россия, " + index;
      } else if Contains(preAddress, "Переулок") {
        var preFinalAddress := Replace(preAddress, "Переулок", "переулок");
        line := "Адрес: " + preFinalAddress + ", " + city + ", Россия, " + index;
      } else {
        line := "Адрес:" + preAddress + ", " + city + ", Россия, " + index;
      }
      finalAddress := Some(line);
      r := Ok(line);
    }
  }

  const Greeting := "Привет"
  const Prompt := "Привет, введи ИНН"
  const Rejection := "Нужно ввести именно ИНН"

  /** What echo_message does with an incoming text. */
  datatype Action = Greet | Lookup | Reject

  /** The greeting is checked first, but it is six characters long, so it never hides a
      ten-character identifier. */
  function Classify(text: string): (a: Action)
    ensures a == Greet <==> text == Greeting
    ensures a == Lookup <==> |text| == 10
    ensures a == Reject <==> text != Greeting && |text| != 10
  {
    if text == Greeting then Greet
    else if |text| == 10 then Lookup
    else Reject
  }

  /** What escapes echo_message instead of a reply: the lookup failed (request_data
      raises when the registry answers without a search token or without a row), or the
      address formatter raised. */
  datatype Failure = LookupFailure | AddressFailure(error: AddressError)

  /** echo_message: the reply sent for `text`, where `registry` stands for the registry
      lookup of request_data: the first row found for the query, or None when the lookup
      raises. A lookup sends name, numbers and address concatenated; when the lookup or
      the address formatter raises, nothing is sent and the error escapes. */
  method EchoMessage(text: string, registry: string -> Option<RawRecord>) returns (reply: Result<string, Failure>)
    ensures Classify(text) == Greet ==> reply == Ok(Prompt)
    ensures Classify(text) == Reject ==> reply == Ok(Rejection)
    ensures Classify(text) == Lookup ==>
      match registry(text)
      case None => reply == Err(LookupFailure)
      case Some(rec) =>
        match FinalAddress(rec.address)
        case Err(e) => reply == Err(AddressFailure(e))
        case Ok(a) => reply == Ok(FinalName(rec.name) + FinalNumbers(rec.ogrn, rec.inn, rec.kpp) + a)
    ensures reply.Err? <==>
      Classify(text) == Lookup &&
      (registry(text).None? || !Contains(registry(text).value.address, ", "))
  {
    if text == Greeting {
      reply := Ok(Prompt);
    } else if |text| == 10 {
      var found := registry(text);
      if found.None? {
        return Err(LookupFailure);
      }
      var rec := found.value;
      var requestedData := new InputData(rec.name, rec.ogrn, rec.inn, rec.kpp, rec.address);
      var finalName := requestedData.GetFinalName();
      var finalNumbers := requestedData.GetFinalNumbers();
      var finalAddress := requestedData.GetFinalAddress();
      AddressFailsIff(rec.address);
      match finalAddress
      case Err(e) =>
        reply := Err(AddressFailure(e));
      case Ok(a) =>
        reply := Ok(finalName + finalNumbers + a);
    } else {
      reply := Ok(Rejection);
    }
  }
}
